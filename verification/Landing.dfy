/** How contents land in a message while it streams, and how its texts are glued when the stream is over. */
module Landing {
  import opened Values
  import opened Contents

  // ---------- Landing ----------

  /** A content joins the message; nothing if the arguments of two call fragments do not fit, where it raises. */
  function Land(contents: seq<Content>, content: Content): Option<seq<Content>> {
    if content.Call? && contents != [] && contents[|contents| - 1].Call? then
      var last := |contents| - 1;
      match Add(contents[last], content)
      case Added(sum) => Some(contents[last := sum])
      case Incompatible => None
      case _ => Some(contents + [content])
    else Some(contents + [content])
  }

  function LandAll(contents: seq<Content>, more: seq<Content>): Option<seq<Content>> {
    if more == [] then Some(contents)
    else
      var before := LandAll(contents, more[..|more| - 1]);
      if before.None? then None else Land(before.value, more[|more| - 1])
  }

  /** A text or call fragment that two fragments add up to. */
  ghost predicate AddsUp(whole: Content, first: Content, second: Content) {
    (whole.Text? || whole.Call?) && Add(first, second) == Added(whole)
  }

  /** They can stand for it, whatever comes before: the first is not marked null in front of a marked second. */
  ghost predicate Splits(whole: Content, first: Content, second: Content) {
    AddsUp(whole, first, second) && !NullBeforeMarked(first.props, second.props)
  }

  lemma CallAddsUp(left: Content, whole: Content, first: Content, second: Content)
    requires left.Call? && whole.Call? && Splits(whole, first, second)
    ensures Add(left, first).Invalid? ==> Add(left, whole).Invalid?
    ensures Add(left, first).Incompatible? ==> Add(left, whole).Incompatible?
    ensures Add(left, first).Added? ==> Add(Add(left, first).content, second) == Add(left, whole)
    ensures !Add(left, first).Mismatch?
    ensures Add(left, first).Added? ==> Add(left, whole).Added? || Add(left, whole).Incompatible?
  {
    hide CombineProps, CombineRaw, CombineArguments;
    CombinePropsAssociates(left.props, first.props, second.props);
    CombineRawAssociates(left.raw, first.raw, second.raw);
    CombineArgumentsAssociates(left.arguments, first.arguments, second.arguments);
    assert first.Call? && second.Call?;
    if Add(left, first).Incompatible? {
      ArgumentsStayApart(left.arguments, first.arguments, second.arguments);
    }
  }

  lemma ArgumentsStayApart(a: Arguments, b: Arguments, c: Arguments)
    requires CombineArguments(a, b).None? && CombineArguments(b, c).Some?
    ensures CombineArguments(a, CombineArguments(b, c).value).None?
  {
    if b.TextArguments? && c.TextArguments? && c.Truthy() {
      assert |b.text + c.text| > 0;
    }
    if b.DictArguments? && c.DictArguments? && c.Truthy() {
      assert c.entries.Keys != {};
      assert (b.entries + c.entries).Keys != {};
    }
  }

  /** Landing both parts of a call fragment is landing the fragment. */
  lemma CallLandsWhole(contents: seq<Content>, whole: Content, first: Content, second: Content)
    requires whole.Call? && Splits(whole, first, second)
    ensures LandAll(contents, [first, second]) == Land(contents, whole)
  {
    hide CombineProps, CombineRaw, CombineArguments;
    assert [first, second][..1] == [first] && [first][..0] == [];
    assert LandAll(contents, [first]) == Land(contents, first);
    assert first.Call? && second.Call?;
    if contents != [] && contents[|contents| - 1].Call? {
      CallAddsUp(contents[|contents| - 1], whole, first, second);
      CallLandsAfterCall(contents, whole, first, second);
    } else {
      assert (contents + [first])[|contents| := whole] == contents + [whole];
    }
  }

  lemma CallLandsAfterCall(contents: seq<Content>, whole: Content, first: Content, second: Content)
    requires whole.Call? && Splits(whole, first, second) && first.Call? && second.Call?
    requires contents != [] && contents[|contents| - 1].Call?
    ensures var landed := Land(contents, first);
      (if landed.None? then None else Land(landed.value, second)) == Land(contents, whole)
  {
    hide Add;
    var last := contents[|contents| - 1];
    CallAddsUp(last, whole, first, second);
    if Add(last, first).Invalid? {
      assert (contents + [first])[|contents| := whole] == contents + [whole];
    } else if Add(last, whole).Added? {
      var at := |contents| - 1;
      assert contents[at := Add(last, first).content][at := Add(last, whole).content]
          == contents[at := Add(last, whole).content];
    }
  }

  // ---------- Gluing ----------

  /** The contents already written and the one being glued. */
  datatype Gluing = Gluing(done: seq<Content>, current: Option<Content>)

  const NOTHING_GLUED := Gluing([], None)

  predicate OfKind(content: Content, reasoning: bool) {
    if reasoning then content.Reasoning? else content.Text?
  }

  function Settle(g: Gluing): seq<Content> {
    if g.current.Some? then g.done + [g.current.value] else g.done
  }

  /** One content; nothing where the addition raises anything but a mismatch. */
  function Glue(g: Gluing, content: Content, reasoning: bool): Option<Gluing> {
    if !OfKind(content, reasoning) then Some(Gluing(Settle(g) + [content], None))
    else if g.current.None? then Some(Gluing(g.done, Some(content)))
    else
      match Add(g.current.value, content)
      case Added(sum) => Some(Gluing(g.done, Some(sum)))
      case Mismatch => Some(Gluing(g.done + [g.current.value], Some(content)))
      case _ => None
  }

  function GlueAll(g: Gluing, contents: seq<Content>, reasoning: bool): Option<Gluing> {
    if contents == [] then Some(g)
    else
      var before := GlueAll(g, contents[..|contents| - 1], reasoning);
      if before.None? then None else Glue(before.value, contents[|contents| - 1], reasoning)
  }

  function Coalesced(contents: seq<Content>, reasoning: bool): Option<seq<Content>> {
    var g := GlueAll(NOTHING_GLUED, contents, reasoning);
    if g.None? then None else Some(Settle(g.value))
  }

  /** `_coalesce_text_content`. */
  method CoalesceTextContent(contents: seq<Content>, reasoning: bool) returns (coalesced: Option<seq<Content>>)
    ensures coalesced == Coalesced(contents, reasoning)
  {
    if contents == [] {
      return Some([]);
    }
    var g := NOTHING_GLUED;
    for i := 0 to |contents|
      invariant GlueAll(NOTHING_GLUED, contents[..i], reasoning) == Some(g)
    {
      assert contents[..i + 1][..i] == contents[..i];
      var content := contents[i];
      if OfKind(content, reasoning) {
        if g.current.None? {
          g := g.(current := Some(content));
        } else {
          var sum := Add(g.current.value, content);
          if sum.Added? {
            g := g.(current := Some(sum.content));
          } else if sum.Mismatch? {
            g := Gluing(g.done + [g.current.value], Some(content));
          } else {
            GluingFails(contents, i + 1, reasoning);
            return None;
          }
        }
      } else {
        g := Gluing(Settle(g) + [content], None);
      }
    }
    assert contents[..|contents|] == contents;
    return Some(Settle(g));
  }

  lemma {:induction false} GluingFails(contents: seq<Content>, n: nat, reasoning: bool)
    requires n <= |contents| && GlueAll(NOTHING_GLUED, contents[..n], reasoning).None?
    ensures GlueAll(NOTHING_GLUED, contents, reasoning).None?
    decreases |contents| - n
  {
    if n == |contents| {
      assert contents[..n] == contents;
    } else {
      assert contents[..n + 1][..n] == contents[..n];
      GluingFails(contents, n + 1, reasoning);
    }
  }

  lemma {:induction false} GlueAllAppends(g: Gluing, a: seq<Content>, b: seq<Content>, reasoning: bool)
    ensures GlueAll(g, a + b, reasoning)
         == var before := GlueAll(g, a, reasoning); if before.None? then None else GlueAll(before.value, b, reasoning)
  {
    hide Glue;
    if b == [] {
      assert a + [] == a;
    } else {
      GlueAllAppends(g, a, b[..|b| - 1], reasoning);
      assert (a + b)[..|a + b| - 1] == a + b[..|b| - 1];
    }
  }

  lemma TextAddsUp(left: Content, whole: Content, first: Content, second: Content)
    requires left.Text? && whole.Text? && Splits(whole, first, second)
    ensures left.text.Some? ==> Add(left, first).Added? && Add(Add(left, first).content, second) == Add(left, whole)
    ensures left.text.None? ==> Add(left, first).Invalid? && Add(left, whole).Invalid?
  {
    hide CombineProps, CombineRaw, CombineAnnotations;
    CombinePropsAssociates(left.props, first.props, second.props);
    CombineRawAssociates(left.raw, first.raw, second.raw);
    CombineAnnotationsAssociates(left.annotations, first.annotations, second.annotations);
    assert first.Text? && second.Text?;
    if left.text.Some? {
      assert left.text.value + first.text.value + second.text.value
          == left.text.value + (first.text.value + second.text.value);
    }
  }

  /** Gluing both parts of a text fragment is gluing the fragment. */
  lemma TextGluesWhole(g: Gluing, whole: Content, first: Content, second: Content)
    requires whole.Text? && Splits(whole, first, second)
    requires g.current.Some? ==> g.current.value.Text?
    ensures GlueAll(g, [first, second], false) == Glue(g, whole, false)
  {
    hide CombineProps, CombineRaw, CombineAnnotations;
    assert [first, second][..1] == [first] && [first][..0] == [];
    assert GlueAll(g, [first], false) == Glue(g, first, false);
    assert first.Text? && second.Text?;
    if g.current.Some? {
      TextAddsUp(g.current.value, whole, first, second);
    }
  }

  lemma {:induction false} CurrentIsOfKind(contents: seq<Content>, reasoning: bool)
    ensures var g := GlueAll(NOTHING_GLUED, contents, reasoning);
      g.Some? && g.value.current.Some? ==> OfKind(g.value.current.value, reasoning)
  {
    hide AddText, AddReasoning, AddCall;
    if contents != [] {
      CurrentIsOfKind(contents[..|contents| - 1], reasoning);
    }
  }

  /** A text fragment, or the two fragments it splits into: the coalesced contents are the same. */
  lemma TextSplitCoalesces(a: seq<Content>, whole: Content, first: Content, second: Content, b: seq<Content>)
    requires whole.Text? && Splits(whole, first, second)
    ensures Coalesced(a + [first, second] + b, false) == Coalesced(a + [whole] + b, false)
  {
    hide Glue, Splits;
    GlueAllAppends(NOTHING_GLUED, a + [first, second], b, false);
    GlueAllAppends(NOTHING_GLUED, a + [whole], b, false);
    GlueAllAppends(NOTHING_GLUED, a, [first, second], false);
    GlueAllAppends(NOTHING_GLUED, a, [whole], false);
    var g := GlueAll(NOTHING_GLUED, a, false);
    if g.Some? {
      CurrentIsOfKind(a, false);
      TextGluesWhole(g.value, whole, first, second);
      assert [whole][..0] == [];
      assert GlueAll(g.value, [whole], false) == Glue(g.value, whole, false);
    }
  }

  // ---------- What gluing keeps ----------

  /** A transcript cut as finely as can be: the characters of the glued kind, and every other content. */
  datatype Token = Character(c: char) | Whole(content: Content)

  function TokensOf(content: Content, reasoning: bool): seq<Token> {
    if OfKind(content, reasoning) then
      var text := TextOr(content.text);
      seq(|text|, i requires 0 <= i < |text| => Character(text[i]))
    else [Whole(content)]
  }

  function Tokens(contents: seq<Content>, reasoning: bool): seq<Token> {
    if contents == [] then []
    else Tokens(contents[..|contents| - 1], reasoning) + TokensOf(contents[|contents| - 1], reasoning)
  }

  lemma TokensAdd(contents: seq<Content>, content: Content, reasoning: bool)
    ensures Tokens(contents + [content], reasoning) == Tokens(contents, reasoning) + TokensOf(content, reasoning)
  {
    assert (contents + [content])[..|contents|] == contents;
  }

  lemma SumTokens(left: Content, right: Content, reasoning: bool)
    requires OfKind(left, reasoning) && OfKind(right, reasoning) && Add(left, right).Added?
    ensures TokensOf(Add(left, right).content, reasoning) == TokensOf(left, reasoning) + TokensOf(right, reasoning)
  {
    hide CombineProps, CombineRaw, CombineAnnotations;
    var sum := Add(left, right).content;
    assert TextOr(sum.text) == TextOr(left.text) + TextOr(right.text);
  }

  lemma {:induction false} GluingKeepsTokens(contents: seq<Content>, reasoning: bool)
    ensures var g := GlueAll(NOTHING_GLUED, contents, reasoning);
      g.Some? ==> Tokens(Settle(g.value), reasoning) == Tokens(contents, reasoning)
  {
    hide AddText, AddReasoning, AddCall, TokensOf;
    if contents != [] {
      var init, last := contents[..|contents| - 1], contents[|contents| - 1];
      GluingKeepsTokens(init, reasoning);
      CurrentIsOfKind(init, reasoning);
      var before := GlueAll(NOTHING_GLUED, init, reasoning);
      if before.Some? && Glue(before.value, last, reasoning).Some? {
        GlueKeepsTokens(before.value, last, reasoning);
      }
    }
  }

  lemma GlueKeepsTokens(g: Gluing, content: Content, reasoning: bool)
    requires g.current.Some? ==> OfKind(g.current.value, reasoning)
    requires Glue(g, content, reasoning).Some?
    ensures Tokens(Settle(Glue(g, content, reasoning).value), reasoning)
         == Tokens(Settle(g), reasoning) + TokensOf(content, reasoning)
  {
    hide AddText, AddReasoning, AddCall, TokensOf, Tokens;
    TokensAdd(Settle(g), content, reasoning);
    TokensAdd(g.done, content, reasoning);
    if g.current.Some? {
      TokensAdd(g.done, g.current.value, reasoning);
      var sum := Add(g.current.value, content);
      if OfKind(content, reasoning) && sum.Added? {
        SumTokens(g.current.value, content, reasoning);
        TokensAdd(g.done, sum.content, reasoning);
      }
    }
  }

  /** Coalescing moves no character of text or reasoning past any other content, and loses and invents none. */
  lemma CoalescingKeepsTokens(contents: seq<Content>, reasoning: bool)
    requires Coalesced(contents, reasoning).Some?
    ensures Tokens(Coalesced(contents, reasoning).value, reasoning) == Tokens(contents, reasoning)
  {
    GluingKeepsTokens(contents, reasoning);
  }

  /** No two texts in a row. */
  ghost predicate TextsApart(contents: seq<Content>) {
    forall i :: 0 <= i < |contents| - 1 ==> !(contents[i].Text? && contents[i + 1].Text?)
  }

  ghost predicate Parted(g: Gluing) {
    && TextsApart(g.done)
    && (g.done != [] ==> !g.done[|g.done| - 1].Text?)
    && (g.current.Some? ==> g.current.value.Text?)
  }

  lemma GluePartsTexts(g: Gluing, content: Content)
    requires Parted(g) && Glue(g, content, false).Some?
    ensures Parted(Glue(g, content, false).value)
  {
    hide CombineProps, CombineRaw, CombineAnnotations, AddReasoning, AddCall;
    var settled := Settle(g);
    assert forall i :: 0 <= i < |g.done| - 1 ==> !(settled[i].Text? && settled[i + 1].Text?);
  }

  lemma {:induction false} GluingPartsTexts(contents: seq<Content>)
    ensures var g := GlueAll(NOTHING_GLUED, contents, false); g.Some? ==> Parted(g.value)
  {
    hide Glue, Parted;
    if contents == [] {
      assert Parted(NOTHING_GLUED) by { NothingIsParted(); }
    } else {
      var init, last := contents[..|contents| - 1], contents[|contents| - 1];
      GluingPartsTexts(init);
      var before := GlueAll(NOTHING_GLUED, init, false);
      if before.Some? && Glue(before.value, last, false).Some? {
        GluePartsTexts(before.value, last);
      }
    }
  }

  lemma NothingIsParted()
    ensures Parted(NOTHING_GLUED)
  {
  }

  lemma {:induction false} PartedTextsStay(contents: seq<Content>)
    requires TextsApart(contents)
    ensures var g := GlueAll(NOTHING_GLUED, contents, false);
      && g.Some? && Settle(g.value) == contents
      && (g.value.current.Some? <==> contents != [] && contents[|contents| - 1].Text?)
  {
    if contents != [] {
      var init, last := contents[..|contents| - 1], contents[|contents| - 1];
      PartedTextsStay(init);
      assert contents == init + [last];
    }
  }

  /** Coalescing texts leaves no two in a row, and doing it again changes nothing. */
  lemma CoalescesTextsOnce(contents: seq<Content>)
    requires Coalesced(contents, false).Some?
    ensures var once := Coalesced(contents, false).value;
      TextsApart(once) && Coalesced(once, false) == Some(once)
  {
    GluingPartsTexts(contents);
    PartedTextsStay(Coalesced(contents, false).value);
  }
}
