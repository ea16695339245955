/** What the contents of a message are made of: which fragments of the stream stand behind each, told from the fragments
    alone. */
module Blocks {
  import opened Values
  import opened Contents
  import opened Landing
  import opened Assembly
  import opened AssemblyLaws

  // ---------- What one fragment gives ----------

  predicate SameKind(a: Content, b: Content) {
    && (a.Text? <==> b.Text?)
    && (a.Reasoning? <==> b.Reasoning?)
    && (a.Call? <==> b.Call?)
  }

  /** The characters of a text or a reasoning, or of the arguments of a call. */
  function SaidBy(c: Content): string {
    match c
    case Text(text, _, _, _) => TextOr(text)
    case Reasoning(_, text, _, _, _, _) => TextOr(text)
    case Call(_, _, arguments, _, _, _, _) => if arguments.TextArguments? then arguments.text else ""
    case _ => ""
  }

  function EntriesBy(c: Content): map<string, Value> {
    if c.Call? && c.arguments.DictArguments? then c.arguments.entries else map[]
  }

  function AnnotationsBy(c: Content): seq<string> {
    if (c.Text? || c.Reasoning?) && c.annotations.Some? then c.annotations.value else []
  }

  function RawBy(c: Content): seq<string> {
    if c.Text? || c.Reasoning? || c.Call? then RawItems(c.raw) else []
  }

  function PropsBy(c: Content): Props {
    if c.Text? || c.Reasoning? || c.Call? then c.props else Props(None, map[])
  }

  function RestBy(c: Content): map<string, Value> {
    PropsBy(c).rest
  }

  function SegmentsBy(c: Content): seq<string> {
    if Marked(PropsBy(c)) then SegmentIds(PropsBy(c).segments.value) else []
  }

  function NameBy(c: Content): Option<string> {
    if c.Call? then c.name else None
  }

  function ExceptionBy(c: Content): Option<string> {
    if c.Call? then c.exception else None
  }

  function CallIdBy(c: Content): Option<string> {
    if c.Call? then c.callId else None
  }

  function ReasoningIdBy(c: Content): Option<string> {
    if c.Reasoning? then c.id else None
  }

  function ProtectedBy(c: Content): Option<string> {
    if c.Reasoning? then c.protectedData else None
  }

  predicate InformationalBy(c: Content) {
    c.Call? && c.informational
  }

  // ---------- What a block gives ----------

  function Joined<T>(block: seq<Content>, part: Content -> seq<T>): seq<T> {
    if block == [] then [] else Joined(block[..|block| - 1], part) + part(block[|block| - 1])
  }

  /** Later entries replace earlier ones. */
  function LastEntries(block: seq<Content>): map<string, Value> {
    if block == [] then map[] else LastEntries(block[..|block| - 1]) + EntriesBy(block[|block| - 1])
  }

  /** Earlier properties stay. */
  function FirstRest(block: seq<Content>): map<string, Value> {
    if block == [] then map[] else RestBy(block[|block| - 1]) + FirstRest(block[..|block| - 1])
  }

  ghost predicate FirstFilled(s: Option<string>, block: seq<Content>, part: Content -> Option<string>) {
    if Filled(s) then
      exists i :: 0 <= i < |block| && part(block[i]) == s && forall j :: 0 <= j < i ==> !Filled(part(block[j]))
    else forall i :: 0 <= i < |block| ==> !Filled(part(block[i]))
  }

  ghost predicate LastGiven(s: Option<string>, block: seq<Content>, part: Content -> Option<string>) {
    if s.Some? then
      exists i :: 0 <= i < |block| && part(block[i]) == s && forall j :: i < j < |block| ==> part(block[j]).None?
    else forall i :: 0 <= i < |block| ==> part(block[i]).None?
  }

  /** A text has text, and a reasoning has text unless that is empty. */
  predicate Present(c: Content) {
    (c.Text? ==> c.text.Some?) && (c.Reasoning? ==> (c.text.Some? <==> SaidBy(c) != ""))
  }

  /** The content that some fragments in a row make. */
  ghost predicate MadeOf(c: Content, block: seq<Content>) {
    && block != [] && (if |block| == 1 then c == block[0] else Present(c))
    && (forall i :: 0 <= i < |block| ==> SameKind(block[i], c))
    && SaidBy(c) == Joined(block, SaidBy)
    && EntriesBy(c) == LastEntries(block)
    && CallIdBy(c) == CallIdBy(block[0])
    && FirstFilled(NameBy(c), block, NameBy)
    && FirstFilled(ExceptionBy(c), block, ExceptionBy)
    && FirstFilled(ReasoningIdBy(c), block, ReasoningIdBy)
    && LastGiven(ProtectedBy(c), block, ProtectedBy)
    && (InformationalBy(c) <==> exists i :: 0 <= i < |block| && InformationalBy(block[i]))
    && AnnotationsBy(c) == Joined(block, AnnotationsBy)
    && RawBy(c) == Joined(block, RawBy)
    && RestBy(c) == FirstRest(block)
    && SegmentsMade(c, block)
  }

  /** Where no marker is an explicit null, the segments are those of the fragments, in order of first mention. */
  ghost predicate SegmentsMade(c: Content, block: seq<Content>) {
    (forall i :: 0 <= i < |block| ==> PropsBy(block[i]).segments != Some(Null)) ==>
      && PropsBy(c).segments != Some(Null)
      && Deduplicated(SegmentsBy(c)) == Deduplicated(Joined(block, SegmentsBy))
  }

  // ---------- Growing a block ----------

  lemma JoinedAdds<T>(block: seq<Content>, c: Content, part: Content -> seq<T>)
    ensures Joined(block + [c], part) == Joined(block, part) + part(c)
  {
    assert (block + [c])[..|block|] == block;
  }

  lemma MapsAdd(block: seq<Content>, c: Content)
    ensures LastEntries(block + [c]) == LastEntries(block) + EntriesBy(c)
    ensures FirstRest(block + [c]) == RestBy(c) + FirstRest(block)
  {
    assert (block + [c])[..|block|] == block;
  }

  lemma FirstFilledAdds(s: Option<string>, block: seq<Content>, c: Content, part: Content -> Option<string>)
    requires FirstFilled(s, block, part)
    ensures FirstFilled(Or(s, part(c)), block + [c], part)
  {
    var longer := block + [c];
    assert longer[|block|] == c;
    if Filled(s) {
      var i :| 0 <= i < |block| && part(block[i]) == s && forall j :: 0 <= j < i ==> !Filled(part(block[j]));
      assert part(longer[i]) == s;
    }
  }

  lemma LastGivenAdds(s: Option<string>, block: seq<Content>, c: Content, part: Content -> Option<string>)
    requires LastGiven(s, block, part)
    ensures LastGiven(if part(c).Some? then part(c) else s, block + [c], part)
  {
    var longer := block + [c];
    assert longer[|block|] == c;
    if s.Some? && part(c).None? {
      var i :| 0 <= i < |block| && part(block[i]) == s && forall j :: i < j < |block| ==> part(block[j]).None?;
      assert part(longer[i]) == s;
    }
  }

  lemma InformationalAdds(block: seq<Content>, c: Content)
    ensures (exists i :: 0 <= i < |block + [c]| && InformationalBy((block + [c])[i]))
            <==> (exists i :: 0 <= i < |block| && InformationalBy(block[i])) || InformationalBy(c)
  {
    var longer := block + [c];
    assert longer[|block|] == c;
    if i :| 0 <= i < |block| && InformationalBy(block[i]) {
      assert InformationalBy(longer[i]);
    }
  }

  lemma SegmentsAdd(c: Content, block: seq<Content>, next: Content, sum: Content)
    requires SegmentsMade(c, block) && PropsBy(sum).segments == CombineProps(PropsBy(c), PropsBy(next)).segments
    ensures SegmentsMade(sum, block + [next])
  {
    var longer := block + [next];
    if forall i :: 0 <= i < |longer| ==> PropsBy(longer[i]).segments != Some(Null) {
      forall i | 0 <= i < |block|
        ensures PropsBy(block[i]).segments != Some(Null)
      {
        assert longer[i] == block[i];
      }
      assert longer[|block|] == next;
      JoinedAdds(block, next, SegmentsBy);
      var before, here := SegmentsBy(c), SegmentsBy(next);
      DeduplicateLeft(Joined(block, SegmentsBy), here);
      DeduplicateLeft(before, here);
      SegmentsCombine(PropsBy(c), PropsBy(next));
      DeduplicateTwice(before + here);
    }
  }

  /** Without explicit nulls the segments of a combination are those of both sides. */
  lemma SegmentsCombine(left: Props, right: Props)
    requires left.segments != Some(Null) && right.segments != Some(Null)
    ensures var sum := CombineProps(left, right);
      && sum.segments != Some(Null)
      && Deduplicated(if Marked(sum) then SegmentIds(sum.segments.value) else [])
         == Deduplicated((if Marked(left) then SegmentIds(left.segments.value) else [])
                         + (if Marked(right) then SegmentIds(right.segments.value) else []))
  {
    hide Deduplicated, SegmentIds, Strings;
    if Marked(left) && Marked(right) {
      CombinedSegments(left.segments.value, right.segments.value);
      DeduplicateTwice(SegmentIds(left.segments.value) + SegmentIds(right.segments.value));
    } else if Marked(left) {
      assert SegmentIds(left.segments.value) + [] == SegmentIds(left.segments.value);
    } else if Marked(right) {
      assert [] + SegmentIds(right.segments.value) == SegmentIds(right.segments.value);
    } else {
      var none: seq<string> := [];
      assert none + none == none;
    }
  }

  /** A fragment alone. */
  lemma MadeOfOne(c: Content)
    ensures MadeOf(c, [c])
  {
    JoinedAdds([], c, SaidBy);
    JoinedAdds([], c, AnnotationsBy);
    JoinedAdds([], c, RawBy);
    JoinedAdds([], c, SegmentsBy);
    MapsAdd([], c);
    assert [] + [c] == [c];
    assert [] + SegmentsBy(c) == SegmentsBy(c);
  }

  /** The parts of a sum. */
  lemma SumGives(left: Content, right: Content)
    requires Add(left, right).Added?
    ensures var sum := Add(left, right).content;
      && SameKind(left, right) && SameKind(left, sum) && (left.Text? || left.Reasoning? || left.Call?)
      && SaidBy(sum) == SaidBy(left) + SaidBy(right)
      && EntriesBy(sum) == EntriesBy(left) + EntriesBy(right)
      && CallIdBy(sum) == CallIdBy(left)
      && AnnotationsBy(sum) == AnnotationsBy(left) + AnnotationsBy(right)
      && RawBy(sum) == RawBy(left) + RawBy(right)
      && RestBy(sum) == RestBy(right) + RestBy(left)
      && PropsBy(sum) == CombineProps(PropsBy(left), PropsBy(right)) && Present(sum)
  {
  }

  lemma SumChooses(left: Content, right: Content)
    requires Add(left, right).Added?
    ensures var sum := Add(left, right).content;
      && NameBy(sum) == Or(NameBy(left), NameBy(right))
      && ExceptionBy(sum) == Or(ExceptionBy(left), ExceptionBy(right))
      && ReasoningIdBy(sum) == Or(ReasoningIdBy(left), ReasoningIdBy(right))
      && ProtectedBy(sum) == (if ProtectedBy(right).Some? then ProtectedBy(right) else ProtectedBy(left))
      && (InformationalBy(sum) <==> InformationalBy(left) || InformationalBy(right))
  {
    hide CombineProps, CombineRaw, CombineAnnotations;
  }

  lemma BlockGrows(c: Content, block: seq<Content>, next: Content)
    requires MadeOf(c, block) && Add(c, next).Added?
    ensures MadeOf(Add(c, next).content, block + [next])
  {
    hide Add, Joined, LastEntries, FirstRest, FirstFilled, LastGiven, SegmentsMade, Or;
    var sum := Add(c, next).content;
    SumGives(c, next);
    SumChooses(c, next);
    JoinedAdds(block, next, SaidBy);
    JoinedAdds(block, next, AnnotationsBy);
    JoinedAdds(block, next, RawBy);
    MapsAdd(block, next);
    FirstFilledAdds(NameBy(c), block, next, NameBy);
    FirstFilledAdds(ExceptionBy(c), block, next, ExceptionBy);
    FirstFilledAdds(ReasoningIdBy(c), block, next, ReasoningIdBy);
    LastGivenAdds(ProtectedBy(c), block, next, ProtectedBy);
    InformationalAdds(block, next);
    SegmentsAdd(c, block, next, sum);
  }

  // ---------- The blocks of a message while it streams ----------

  ghost predicate Blocked(contents: seq<Content>, blocks: seq<seq<Content>>) {
    |blocks| == |contents| && forall i :: 0 <= i < |contents| ==> MadeOf(contents[i], blocks[i])
  }

  predicate NoneEmpty(blocks: seq<seq<Content>>) {
    forall i :: 0 <= i < |blocks| ==> blocks[i] != []
  }

  /** A call fragment goes on with a call: it has no id, or that call's. */
  predicate Continues(c: Content, first: Content) {
    c.Call? && first.Call? && (!Filled(c.callId) || c.callId == first.callId)
  }

  /** Every block is one call told in fragments, or one other content, and no two in a row go on with each other. */
  ghost predicate CallRuns(blocks: seq<seq<Content>>) {
    && NoneEmpty(blocks)
    && (forall i, j :: 0 <= i < |blocks| && 0 < j < |blocks[i]| ==> Continues(blocks[i][j], blocks[i][0]))
    && (forall i :: 0 < i < |blocks| ==> !Continues(blocks[i][0], blocks[i - 1][0]))
  }

  /** Arguments given as text and as entries. */
  predicate Mixed(block: seq<Content>) {
    Joined(block, SaidBy) != "" && LastEntries(block) != map[]
  }

  /** The last block goes on, or a new one starts. */
  function Longer(blocks: seq<seq<Content>>, c: Content): seq<seq<Content>>
    requires blocks != []
  {
    blocks[|blocks| - 1 := blocks[|blocks| - 1] + [c]]
  }

  lemma BlocksFlatten(blocks: seq<seq<Content>>, c: Content)
    ensures blocks != [] ==> Flattened(Longer(blocks, c)) == Flattened(blocks) + [c]
    ensures Flattened(blocks + [[c]]) == Flattened(blocks) + [c]
  {
    FlattenedAdds(blocks, [c]);
    if blocks != [] {
      var init, last := blocks[..|blocks| - 1], blocks[|blocks| - 1];
      assert Longer(blocks, c) == init + [last + [c]];
      FlattenedAdds(init, last + [c]);
      assert Flattened(init) + (last + [c]) == Flattened(init) + last + [c];
    }
  }

  lemma CallRunsGrow(blocks: seq<seq<Content>>, c: Content)
    requires CallRuns(blocks)
    ensures blocks != [] && Continues(c, blocks[|blocks| - 1][0]) ==> CallRuns(Longer(blocks, c))
    ensures (blocks != [] ==> !Continues(c, blocks[|blocks| - 1][0])) ==> CallRuns(blocks + [[c]])
  {
    hide Continues;
  }

  /** What lands on a call goes on with it, or is another call, or does not fit its arguments. */
  lemma CallsAdd(left: Content, block: seq<Content>, c: Content)
    requires MadeOf(left, block) && left.Call? && c.Call?
    ensures Add(left, c).Invalid? <==> !Continues(c, block[0])
    ensures Add(left, c).Incompatible? ==> Mixed(block + [c])
    ensures !Add(left, c).Mismatch?
  {
    hide CombineProps, CombineRaw, SegmentsMade, FirstFilled, LastGiven, Joined, LastEntries;
    assert SameKind(block[0], left);
    JoinedAdds(block, c, SaidBy);
    MapsAdd(block, c);
    if Add(left, c).Incompatible? {
      assert (EntriesBy(left) + EntriesBy(c)).Keys == EntriesBy(left).Keys + EntriesBy(c).Keys;
      assert EntriesBy(left) != map[] ==> EntriesBy(left).Keys != {};
      assert EntriesBy(c) != map[] ==> EntriesBy(c).Keys != {};
    }
  }

  lemma MixedStays(block: seq<Content>, c: Content)
    requires Mixed(block)
    ensures Mixed(block + [c])
  {
    JoinedAdds(block, c, SaidBy);
    MapsAdd(block, c);
    assert (LastEntries(block) + EntriesBy(c)).Keys == LastEntries(block).Keys + EntriesBy(c).Keys;
    assert LastEntries(block).Keys != {};
  }

  lemma MadeIsNotMixed(c: Content, block: seq<Content>)
    requires MadeOf(c, block)
    ensures !Mixed(block)
  {
    hide Joined, LastEntries, SegmentsMade, FirstFilled, LastGiven;
  }

  lemma BlockedLonger(contents: seq<Content>, blocks: seq<seq<Content>>, c: Content)
    requires Blocked(contents, blocks) && contents != [] && Add(contents[|contents| - 1], c).Added?
    ensures Blocked(contents[|contents| - 1 := Add(contents[|contents| - 1], c).content], Longer(blocks, c))
  {
    hide MadeOf, Add;
    BlockGrows(contents[|contents| - 1], blocks[|blocks| - 1], c);
  }

  lemma BlockedMore(contents: seq<Content>, blocks: seq<seq<Content>>, c: Content)
    requires Blocked(contents, blocks)
    ensures Blocked(contents + [c], blocks + [[c]])
  {
    hide MadeOf;
    MadeOfOne(c);
  }

  /** What one landing content does to the blocks. */
  lemma LandsOnBlocks(contents: seq<Content>, blocks: seq<seq<Content>>, c: Content) returns (next: seq<seq<Content>>)
    requires Blocked(contents, blocks) && CallRuns(blocks)
    ensures CallRuns(next) && Flattened(next) == Flattened(blocks) + [c]
    ensures Land(contents, c).Some? ==> Blocked(Land(contents, c).value, next)
    ensures Land(contents, c).None? ==> next != [] && Mixed(next[|next| - 1])
  {
    hide Add, MadeOf, Flattened, Mixed, CallRuns;
    CallRunsGrow(blocks, c);
    BlocksFlatten(blocks, c);
    next := blocks + [[c]];
    if contents != [] {
      var left, block := contents[|contents| - 1], blocks[|blocks| - 1];
      MadeFromFirst(left, block);
      if c.Call? && left.Call? {
        CallsAdd(left, block, c);
        if Continues(c, block[0]) {
          next := Longer(blocks, c);
          if Add(left, c).Added? {
            BlockedLonger(contents, blocks, c);
          }
          return;
        }
      }
    }
    BlockedMore(contents, blocks, c);
  }

  lemma MadeFromFirst(c: Content, block: seq<Content>)
    requires MadeOf(c, block)
    ensures block != [] && SameKind(block[0], c)
  {
  }

  /** A message that already failed fails however its blocks go on. */
  lemma FailedBlocks(blocks: seq<seq<Content>>, c: Content, at: nat) returns (next: seq<seq<Content>>)
    requires CallRuns(blocks) && at < |blocks| && Mixed(blocks[at])
    ensures CallRuns(next) && Flattened(next) == Flattened(blocks) + [c]
    ensures at < |next| && Mixed(next[at])
  {
    hide Flattened, Mixed, CallRuns, Continues;
    CallRunsGrow(blocks, c);
    BlocksFlatten(blocks, c);
    MixedStays(blocks[at], c);
    assert blocks != [];
    assert blocks[|blocks| - 1] != [] by { RunsAreFilled(blocks); }
    next := if Continues(c, blocks[|blocks| - 1][0]) then Longer(blocks, c) else blocks + [[c]];
  }

  lemma RunsAreFilled(blocks: seq<seq<Content>>)
    requires CallRuns(blocks)
    ensures NoneEmpty(blocks)
  {
  }

  /** The contents of a streamed message are the blocks of what came in: calls as their fragments tell them, everything
      else as it is. Landing raises exactly if some call has arguments given as text and as entries. */
  lemma {:induction false} LandingBlocks(group: seq<Content>) returns (blocks: seq<seq<Content>>)
    ensures Flattened(blocks) == group && CallRuns(blocks)
    ensures LandAll([], group).Some? <==> forall i :: 0 <= i < |blocks| ==> !Mixed(blocks[i])
    ensures LandAll([], group).Some? ==> Blocked(LandAll([], group).value, blocks)
  {
    hide Land, Mixed, MadeOf, Flattened, CallRuns;
    if group == [] {
      blocks := [];
      assert Flattened([]) == [] && CallRuns([]) by { NothingIsBlocked(); }
    } else {
      var init, c := group[..|group| - 1], group[|group| - 1];
      blocks := LandingBlocks(init);
      var landed := LandAll([], init);
      if landed.Some? {
        blocks := LandsOnBlocks(landed.value, blocks, c);
        if LandAll([], group).Some? {
          BlockedIsNotMixed(LandAll([], group).value, blocks);
        }
      } else {
        var at: nat :| at < |blocks| && Mixed(blocks[at]);
        blocks := FailedBlocks(blocks, c, at);
      }
    }
  }

  lemma NothingIsBlocked()
    ensures Flattened([]) == [] && CallRuns([])
  {
  }

  lemma BlockedIsNotMixed(contents: seq<Content>, blocks: seq<seq<Content>>)
    requires Blocked(contents, blocks)
    ensures forall i :: 0 <= i < |blocks| ==> !Mixed(blocks[i])
  {
    hide MadeOf, Mixed;
    forall i | 0 <= i < |blocks|
      ensures !Mixed(blocks[i])
    {
      MadeIsNotMixed(contents[i], blocks[i]);
    }
  }

  // ---------- The blocks of a finished message ----------

  /** Reasonings that stay apart: ids, formats, redaction, origin of the text or protected data disagree. */
  predicate Disagree(left: Content, right: Content) {
    var ids := Filled(ReasoningIdBy(left)) && Filled(ReasoningIdBy(right));
    || (ids && ReasoningIdBy(left) != ReasoningIdBy(right))
    || Get(RestBy(left), REASONING_FORMAT) != Get(RestBy(right), REASONING_FORMAT)
    || Get(RestBy(left), REDACTED_THINKING) != Get(RestBy(right), REDACTED_THINKING)
    || (SaidBy(left) != "" && SaidBy(right) != "" && (REASONING_TEXT in RestBy(left)) != (REASONING_TEXT in RestBy(right)))
    || (ProtectedBy(left).Some? && ProtectedBy(right).Some? && ProtectedBy(left) != ProtectedBy(right) && !ids)
  }

  /** A content goes on with the block of its kind before it; of reasonings only one that agrees with what was said. */
  ghost predicate GoesOn(block: seq<Content>, c: Content, reasoning: bool) {
    && block != [] && OfKind(block[0], reasoning) && OfKind(c, reasoning)
    && (reasoning ==> exists whole :: MadeOf(whole, block) && !Disagree(whole, c))
  }

  ghost predicate StaysApart(block: seq<Content>, c: Content, reasoning: bool) {
    block != [] && OfKind(block[0], reasoning) && OfKind(c, reasoning) ==>
      reasoning && exists whole :: MadeOf(whole, block) && Disagree(whole, c)
  }

  /** Every block is one text or reasoning told in fragments, or one other content, as long as it can be. */
  ghost predicate GluedRuns(blocks: seq<seq<Content>>, reasoning: bool) {
    && NoneEmpty(blocks)
    && (forall i, j :: 0 <= i < |blocks| && 0 < j < |blocks[i]| ==> GoesOn(blocks[i][..j], blocks[i][j], reasoning))
    && (forall i :: 0 < i < |blocks| ==> StaysApart(blocks[i - 1], blocks[i][0], reasoning))
  }

  /** Texts in a row of which one has no text. */
  predicate Unreadable(block: seq<Content>) {
    |block| > 1 && exists i :: 0 <= i < |block| && block[i].Text? && block[i].text.None?
  }

  lemma GluedRunsGrow(blocks: seq<seq<Content>>, c: Content, reasoning: bool)
    requires GluedRuns(blocks, reasoning)
    ensures blocks != [] && GoesOn(blocks[|blocks| - 1], c, reasoning) ==> GluedRuns(Longer(blocks, c), reasoning)
    ensures (blocks != [] ==> StaysApart(blocks[|blocks| - 1], c, reasoning)) ==> GluedRuns(blocks + [[c]], reasoning)
  {
    hide GoesOn, StaysApart;
    if blocks != [] && GoesOn(blocks[|blocks| - 1], c, reasoning) {
      var last, next := blocks[|blocks| - 1], Longer(blocks, c);
      forall i, j | 0 <= i < |next| && 0 < j < |next[i]|
        ensures GoesOn(next[i][..j], next[i][j], reasoning)
      {
        if i < |blocks| - 1 {
          assert next[i] == blocks[i];
        } else if j == |last| {
          assert (last + [c])[..j] == last;
        } else {
          assert (last + [c])[..j] == last[..j];
        }
      }
      forall i | 0 < i < |next|
        ensures StaysApart(next[i - 1], next[i][0], reasoning)
      {
        assert next[i - 1] == blocks[i - 1] && next[i][0] == blocks[i][0];
      }
    }
    if blocks != [] ==> StaysApart(blocks[|blocks| - 1], c, reasoning) {
      var next := blocks + [[c]];
      forall i, j | 0 <= i < |next| && 0 < j < |next[i]|
        ensures GoesOn(next[i][..j], next[i][j], reasoning)
      {
        assert next[i] == blocks[i];
      }
    }
  }

  /** The additions of gluing. */
  lemma KindsAdd(left: Content, c: Content, reasoning: bool)
    requires OfKind(left, reasoning) && OfKind(c, reasoning)
    ensures reasoning ==> (Add(left, c).Mismatch? <==> Disagree(left, c)) && (Add(left, c).Added? <==> !Disagree(left, c))
    ensures !reasoning ==> (Add(left, c).Added? <==> left.text.Some? && c.text.Some?)
    ensures !reasoning && Add(left, c).Added? ==> Add(left, c).content.text.Some?
    ensures !reasoning ==> !Add(left, c).Mismatch?
  {
    hide CombineProps, CombineRaw, CombineAnnotations;
  }

  /** The state of a gluing as blocks: the content being glued is the last one. */
  ghost predicate GluedAs(g: Gluing, blocks: seq<seq<Content>>, reasoning: bool) {
    && Blocked(Settle(g), blocks) && GluedRuns(blocks, reasoning)
    && (forall i :: 0 <= i < |blocks| ==> !Unreadable(blocks[i]))
    && (g.current.Some? ==> OfKind(g.current.value, reasoning))
    && (g.current.None? && g.done != [] ==> !OfKind(g.done[|g.done| - 1], reasoning))
  }

  /** Gluing fails on a text without text next to another. */
  lemma GlueStopsAt(left: Content, block: seq<Content>, c: Content, reasoning: bool)
    requires MadeOf(left, block) && OfKind(left, reasoning) && OfKind(c, reasoning) && !Unreadable(block)
    ensures Add(left, c).Added? ==> GoesOn(block, c, reasoning) && !Unreadable(block + [c])
    ensures Add(left, c).Mismatch? ==> StaysApart(block, c, reasoning)
    ensures !Add(left, c).Added? && !Add(left, c).Mismatch? ==>
              GoesOn(block, c, reasoning) && Unreadable(block + [c])
  {
    hide MadeOf, Add, Disagree;
    KindsAdd(left, c, reasoning);
    MadeFromFirst(left, block);
    MadeReads(left, block, reasoning);
    var longer := block + [c];
    assert longer[|block|] == c;
    assert forall i :: 0 <= i < |block| ==> longer[i] == block[i];
  }

  lemma MadeReads(left: Content, block: seq<Content>, reasoning: bool)
    requires MadeOf(left, block) && OfKind(left, reasoning) && !Unreadable(block)
    ensures forall i :: 0 <= i < |block| ==> OfKind(block[i], reasoning)
    ensures |block| == 1 ==> block[0] == left
    ensures !reasoning && |block| > 1 ==> left.text.Some? && forall i :: 0 <= i < |block| ==> block[i].text.Some?
  {
  }

  /** What one more content does to the blocks. */
  lemma GluesOnBlocks(g: Gluing, blocks: seq<seq<Content>>, c: Content, reasoning: bool) returns (next: seq<seq<Content>>)
    requires GluedAs(g, blocks, reasoning)
    ensures GluedRuns(next, reasoning) && Flattened(next) == Flattened(blocks) + [c]
    ensures Glue(g, c, reasoning).Some? ==> GluedAs(Glue(g, c, reasoning).value, next, reasoning)
    ensures Glue(g, c, reasoning).None? ==> next != [] && Unreadable(next[|next| - 1])
  {
    hide Add, MadeOf, Flattened, GluedRuns, GoesOn;
    GluedRunsGrow(blocks, c, reasoning);
    BlocksFlatten(blocks, c);
    var contents := Settle(g);
    next := blocks + [[c]];
    if contents != [] {
      var left, block := contents[|contents| - 1], blocks[|blocks| - 1];
      MadeFromFirst(left, block);
      assert OfKind(block[0], reasoning) <==> g.current.Some?;
      if OfKind(c, reasoning) && g.current.Some? {
        GlueStopsAt(left, block, c, reasoning);
        if !Add(left, c).Mismatch? {
          next := Longer(blocks, c);
          if Add(left, c).Added? {
            BlockedLonger(contents, blocks, c);
            assert contents[|contents| - 1 := Add(left, c).content] == g.done + [Add(left, c).content];
            AddKeepsKind(left, c, reasoning);
          }
          return;
        }
      }
    }
    BlockedMore(contents, blocks, c);
  }

  lemma AddKeepsKind(left: Content, c: Content, reasoning: bool)
    requires OfKind(left, reasoning) && Add(left, c).Added?
    ensures OfKind(Add(left, c).content, reasoning)
  {
  }

  /** Gluing that already failed fails however the texts go on. */
  lemma FailedGluing(blocks: seq<seq<Content>>, c: Content, reasoning: bool, at: nat) returns (next: seq<seq<Content>>)
    requires GluedRuns(blocks, reasoning) && at < |blocks| && Unreadable(blocks[at])
    ensures GluedRuns(next, reasoning) && Flattened(next) == Flattened(blocks) + [c]
    ensures at < |next| && Unreadable(next[at])
  {
    hide Flattened, GluedRuns, MadeOf;
    GluedRunsGrow(blocks, c, reasoning);
    BlocksFlatten(blocks, c);
    UnreadableIsText(blocks, reasoning, at);
    var block := blocks[|blocks| - 1];
    if block[0].Text? && c.Text? {
      next := Longer(blocks, c);
      if at == |blocks| - 1 {
        UnreadableStays(block, c);
      }
    } else {
      next := blocks + [[c]];
    }
  }

  lemma UnreadableStays(block: seq<Content>, c: Content)
    requires Unreadable(block)
    ensures Unreadable(block + [c])
  {
    var i :| 0 <= i < |block| && block[i].Text? && block[i].text.None?;
    assert (block + [c])[i] == block[i];
  }

  lemma UnreadableIsText(blocks: seq<seq<Content>>, reasoning: bool, at: nat)
    requires GluedRuns(blocks, reasoning) && at < |blocks| && Unreadable(blocks[at])
    ensures !reasoning && NoneEmpty(blocks)
  {
    var block := blocks[at];
    var i :| 0 <= i < |block| && block[i].Text? && block[i].text.None?;
    assert GoesOn(block[..1], block[1], reasoning);
    if i > 0 {
      assert GoesOn(block[..i], block[i], reasoning);
    }
  }

  /** Coalesced contents are the blocks of what was there. It fails exactly if texts in a row lack a text. */
  lemma {:induction false} GluingBlocks(contents: seq<Content>, reasoning: bool) returns (blocks: seq<seq<Content>>)
    ensures Flattened(blocks) == contents && GluedRuns(blocks, reasoning)
    ensures Coalesced(contents, reasoning).Some? <==> forall i :: 0 <= i < |blocks| ==> !Unreadable(blocks[i])
    ensures Coalesced(contents, reasoning).Some? ==> Blocked(Coalesced(contents, reasoning).value, blocks)
  {
    hide Blocked, GluedRuns, Unreadable;
    blocks := GluingAllBlocks(contents, reasoning);
  }

  lemma {:induction false} GluingAllBlocks(contents: seq<Content>, reasoning: bool) returns (blocks: seq<seq<Content>>)
    ensures Flattened(blocks) == contents && GluedRuns(blocks, reasoning)
    ensures var g := GlueAll(NOTHING_GLUED, contents, reasoning);
      if g.Some? then GluedAs(g.value, blocks, reasoning) else exists i :: 0 <= i < |blocks| && Unreadable(blocks[i])
  {
    hide Glue, GluedAs, Unreadable, Flattened, GluedRuns;
    if contents == [] {
      blocks := [];
      assert Flattened([]) == [] && GluedAs(NOTHING_GLUED, [], reasoning) && GluedRuns([], reasoning) by {
        NothingIsGlued(reasoning);
      }
    } else {
      var init, c := contents[..|contents| - 1], contents[|contents| - 1];
      blocks := GluingAllBlocks(init, reasoning);
      var g := GlueAll(NOTHING_GLUED, init, reasoning);
      if g.Some? {
        blocks := GluesOnBlocks(g.value, blocks, c, reasoning);
      } else {
        var at: nat :| at < |blocks| && Unreadable(blocks[at]);
        blocks := FailedGluing(blocks, c, reasoning, at);
      }
    }
  }

  lemma NothingIsGlued(reasoning: bool)
    ensures Flattened([]) == [] && GluedAs(NOTHING_GLUED, [], reasoning) && GluedRuns([], reasoning)
  {
  }
}
