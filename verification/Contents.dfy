/** Message contents, and how two fragments of one content add up. */
module Contents {
  import opened Values

  /** Provider data carried along. */
  datatype Raw = NoRaw | One(item: string) | Many(items: seq<string>)

  /** Additional properties; the presentation segment ids apart from the rest. */
  datatype Props = Props(segments: Option<Value>, rest: map<string, Value>)

  datatype Arguments = NoArguments | TextArguments(text: string) | DictArguments(entries: map<string, Value>)
  {
    predicate Truthy() {
      match this
      case NoArguments => false
      case TextArguments(text) => text != ""
      case DictArguments(entries) => entries != map[]
    }
  }

  datatype Content =
    | Text(text: Option<string>, annotations: Option<seq<string>>, props: Props, raw: Raw)
    | Reasoning(id: Option<string>, text: Option<string>, protectedData: Option<string>,
                annotations: Option<seq<string>>, props: Props, raw: Raw)
    | Call(callId: Option<string>, name: Option<string>, arguments: Arguments, informational: bool,
           exception: Option<string>, props: Props, raw: Raw)
    | Usage(details: Option<map<string, Value>>)
    | OtherContent(kind: string, image: Value)

  // ---------- Parts ----------

  predicate Filled(s: Option<string>) {
    s.Some? && s.value != ""
  }

  /** `left or right`. */
  function Or(left: Option<string>, right: Option<string>): Option<string> {
    if Filled(left) then left else right
  }

  function CombineRaw(left: Raw, right: Raw): Raw {
    if left.NoRaw? then right
    else if right.NoRaw? then left
    else Many(RawItems(left) + RawItems(right))
  }

  function RawItems(raw: Raw): seq<string> {
    match raw
    case NoRaw => []
    case One(item) => [item]
    case Many(items) => items
  }

  function CombineAnnotations(left: Option<seq<string>>, right: Option<seq<string>>): Option<seq<string>> {
    if left.None? then right
    else if right.None? then left
    else Some(left.value + right.value)
  }

  /** The segment ids a property value names. */
  function SegmentIds(value: Value): seq<string> {
    match value
    case Str(s) => if s == "" then [] else [s]
    case List(items) => NamedIds(items)
    case Tuple(items) => NamedIds(items)
    case _ => []
  }

  function NamedIds(items: seq<Value>): seq<string> {
    if items == [] then []
    else
      var last := items[|items| - 1];
      NamedIds(items[..|items| - 1]) + (if last.Str? && last.s != "" then [last.s] else [])
  }

  /** The ids without repetition, in order of first appearance. */
  function Deduplicated(ids: seq<string>): seq<string> {
    if ids == [] then []
    else
      var init, last := Deduplicated(ids[..|ids| - 1]), ids[|ids| - 1];
      if last in init then init else init + [last]
  }

  function Strings(ids: seq<string>): seq<Value> {
    seq(|ids|, i requires 0 <= i < |ids| => Str(ids[i]))
  }

  /** What `get` sees of the segment property. */
  predicate Marked(props: Props) {
    props.segments.Some? && !props.segments.value.Null?
  }

  function CombineProps(left: Props, right: Props): Props {
    Props(
      if Marked(left) && Marked(right) then
        Some(Tuple(Strings(Deduplicated(SegmentIds(left.segments.value) + SegmentIds(right.segments.value)))))
      else if left.segments.Some? then left.segments
      else right.segments,
      right.rest + left.rest)
  }

  // ---------- Addition ----------

  /** `left + right`, or the exception it raises: `AdditionItemMismatch`, another `ContentError`, `TypeError`. */
  datatype Sum = Added(content: Content) | Mismatch | Invalid | Incompatible

  function AddText(left: Content, right: Content): Sum
    requires left.Text? && right.Text?
  {
    if left.text.None? || right.text.None? then Invalid
    else Added(Text(Some(left.text.value + right.text.value), CombineAnnotations(left.annotations, right.annotations),
                    CombineProps(left.props, right.props), CombineRaw(left.raw, right.raw)))
  }

  function TextOr(text: Option<string>): string {
    if text.Some? then text.value else ""
  }

  const REASONING_FORMAT := "openai_reasoning_format"
  const REDACTED_THINKING := "anthropic_redacted_thinking"
  const REASONING_TEXT := "reasoning_text"

  function AddReasoning(left: Content, right: Content): Sum
    requires left.Reasoning? && right.Reasoning?
  {
    var l, r := TextOr(left.text), TextOr(right.text);
    if Filled(left.id) && Filled(right.id) && left.id != right.id then Mismatch
    else if Get(left.props.rest, REASONING_FORMAT) != Get(right.props.rest, REASONING_FORMAT) then Mismatch
    else if Get(left.props.rest, REDACTED_THINKING) != Get(right.props.rest, REDACTED_THINKING) then Mismatch
    else if l != "" && r != "" && (REASONING_TEXT in left.props.rest) != (REASONING_TEXT in right.props.rest) then Mismatch
    else if left.protectedData.Some? && right.protectedData.Some? && left.protectedData != right.protectedData
            && !(Filled(left.id) && Filled(right.id)) then Mismatch
    else Added(Reasoning(Or(left.id, right.id), if l != "" || r != "" then Some(l + r) else None,
                         if right.protectedData.Some? then right.protectedData else left.protectedData,
                         CombineAnnotations(left.annotations, right.annotations),
                         CombineProps(left.props, right.props), CombineRaw(left.raw, right.raw)))
  }

  /** The merged arguments, absent where the two sides do not fit together. */
  function CombineArguments(left: Arguments, right: Arguments): Option<Arguments> {
    if !left.Truthy() then Some(right)
    else if !right.Truthy() then Some(left)
    else if left.TextArguments? && right.TextArguments? then Some(TextArguments(left.text + right.text))
    else if left.DictArguments? && right.DictArguments? then Some(DictArguments(left.entries + right.entries))
    else None
  }

  function AddCall(left: Content, right: Content): Sum
    requires left.Call? && right.Call?
  {
    if Filled(right.callId) && left.callId != right.callId then Invalid
    else
      var arguments := CombineArguments(left.arguments, right.arguments);
      if arguments.None? then Incompatible
      else Added(Call(left.callId, Or(left.name, right.name), arguments.value,
                      left.informational || right.informational, Or(left.exception, right.exception),
                      CombineProps(left.props, right.props), CombineRaw(left.raw, right.raw)))
  }

  /** `Content.__add__` on the contents that assembly adds. */
  function Add(left: Content, right: Content): (sum: Sum)
    ensures sum.Added? && left.Text? ==> sum.content.Text?
    ensures sum.Added? && left.Call? ==> sum.content.Call?
    ensures sum.Added? && left.Reasoning? ==> sum.content.Reasoning?
  {
    if left.Text? && right.Text? then AddText(left, right)
    else if left.Reasoning? && right.Reasoning? then AddReasoning(left, right)
    else if left.Call? && right.Call? then AddCall(left, right)
    else Incompatible
  }

  // ---------- Associativity ----------

  lemma {:induction false} DeduplicatedKeeps(ids: seq<string>)
    ensures forall id :: id in Deduplicated(ids) <==> id in ids
  {
    if ids != [] {
      var init, last := ids[..|ids| - 1], ids[|ids| - 1];
      DeduplicatedKeeps(init);
      assert ids == init + [last];
    }
  }

  lemma {:induction false} DeduplicateLeft(left: seq<string>, right: seq<string>)
    ensures Deduplicated(Deduplicated(left) + right) == Deduplicated(left + right)
  {
    if right == [] {
      assert left + [] == left && Deduplicated(left) + [] == Deduplicated(left);
      DeduplicateTwice(left);
    } else {
      var init, last := right[..|right| - 1], right[|right| - 1];
      DeduplicateLeft(left, init);
      assert (left + right)[..|left + right| - 1] == left + init;
      assert (Deduplicated(left) + right)[..|Deduplicated(left) + right| - 1] == Deduplicated(left) + init;
    }
  }

  lemma {:induction false} DeduplicateTwice(ids: seq<string>)
    ensures Deduplicated(Deduplicated(ids)) == Deduplicated(ids)
  {
    if ids != [] {
      var init := ids[..|ids| - 1];
      DeduplicateTwice(init);
      var d := Deduplicated(ids);
      if d != Deduplicated(init) {
        assert d[..|d| - 1] == Deduplicated(init);
      }
    }
  }

  lemma {:induction false} DeduplicateRight(left: seq<string>, right: seq<string>)
    ensures Deduplicated(left + Deduplicated(right)) == Deduplicated(left + right)
  {
    if right != [] {
      var init, last := right[..|right| - 1], right[|right| - 1];
      DeduplicateRight(left, init);
      var d := Deduplicated(init);
      assert (left + right)[..|left + right| - 1] == left + init;
      DeduplicatedKeeps(left + init);
      DeduplicatedKeeps(init);
      if last !in d {
        assert (left + (d + [last]))[..|left + (d + [last])| - 1] == left + d;
      }
    }
  }

  /** Where an id is mentioned first. */
  function FirstMention(ids: seq<string>, id: string): nat {
    if ids == [] || ids[0] == id then 0 else 1 + FirstMention(ids[1..], id)
  }

  lemma {:induction false} FirstMentionIs(ids: seq<string>, more: seq<string>, id: string)
    ensures id in ids ==> FirstMention(ids + more, id) == FirstMention(ids, id) < |ids|
    ensures id !in ids ==> FirstMention(ids, id) == |ids| <= FirstMention(ids + more, id)
  {
    if ids != [] {
      FirstMentionIs(ids[1..], more, id);
      assert (ids + more)[1..] == ids[1..] + more;
      assert id in ids <==> id == ids[0] || id in ids[1..];
    }
  }

  /** Without repetition, in the order of first mention. */
  lemma {:induction false} DeduplicatedInOrder(ids: seq<string>)
    ensures var d := Deduplicated(ids);
      && (forall id :: id in d <==> id in ids)
      && forall p, q :: 0 <= p < q < |d| ==> FirstMention(ids, d[p]) < FirstMention(ids, d[q])
  {
    DeduplicatedKeeps(ids);
    if ids != [] {
      var init, last := ids[..|ids| - 1], ids[|ids| - 1];
      DeduplicatedInOrder(init);
      assert ids == init + [last];
      var d := Deduplicated(init);
      forall id | id in d || id == last
        ensures id in init ==> FirstMention(ids, id) == FirstMention(init, id) < |init|
        ensures id !in init ==> FirstMention(ids, id) >= |init|
      {
        FirstMentionIs(init, [last], id);
      }
    }
  }

  lemma {:induction false} StringsName(ids: seq<string>)
    ensures NamedIds(Strings(ids)) == NamedOnly(ids)
  {
    if ids != [] {
      StringsName(ids[..|ids| - 1]);
      assert Strings(ids)[..|ids| - 1] == Strings(ids[..|ids| - 1]);
    }
  }

  /** The ids that are not empty. */
  function NamedOnly(ids: seq<string>): seq<string> {
    if ids == [] then []
    else NamedOnly(ids[..|ids| - 1]) + (if ids[|ids| - 1] != "" then [ids[|ids| - 1]] else [])
  }

  lemma {:induction false} NamedOnlyIsAll(ids: seq<string>)
    requires forall id :: id in ids ==> id != ""
    ensures NamedOnly(ids) == ids
  {
    if ids != [] {
      var init, last := ids[..|ids| - 1], ids[|ids| - 1];
      assert ids == init + [last] && last in ids;
      assert forall id :: id in init ==> id in ids;
      NamedOnlyIsAll(init);
    }
  }

  lemma {:induction false} NamedIdsAreNamed(items: seq<Value>)
    ensures forall id :: id in NamedIds(items) ==> id != ""
  {
    if items != [] {
      NamedIdsAreNamed(items[..|items| - 1]);
    }
  }

  lemma SegmentsNamed(value: Value)
    ensures forall id :: id in SegmentIds(value) ==> id != ""
  {
    match value
    case List(items) => NamedIdsAreNamed(items);
    case Tuple(items) => NamedIdsAreNamed(items);
    case _ =>
  }

  /** The segments of a combination are those of its sides, each once. */
  lemma CombinedSegments(left: Value, right: Value)
    ensures SegmentIds(Tuple(Strings(Deduplicated(SegmentIds(left) + SegmentIds(right)))))
         == Deduplicated(SegmentIds(left) + SegmentIds(right))
  {
    var ids := Deduplicated(SegmentIds(left) + SegmentIds(right));
    SegmentsNamed(left);
    SegmentsNamed(right);
    DeduplicatedKeeps(SegmentIds(left) + SegmentIds(right));
    StringsName(ids);
    NamedOnlyIsAll(ids);
  }

  /** An explicit null segment marker in front of segments: the null wins here, and loses to any marker before it. */
  predicate NullBeforeMarked(b: Props, c: Props) {
    b.segments == Some(Null) && Marked(c)
  }

  lemma CombinePropsAssociates(a: Props, b: Props, c: Props)
    requires !NullBeforeMarked(b, c)
    ensures CombineProps(CombineProps(a, b), c) == CombineProps(a, CombineProps(b, c))
  {
    hide Deduplicated, SegmentIds, Strings;
    assert c.rest + (b.rest + a.rest) == (c.rest + b.rest) + a.rest;
    if Marked(a) && Marked(b) && Marked(c) {
      var x, y, z := a.segments.value, b.segments.value, c.segments.value;
      CombinedSegments(x, y);
      CombinedSegments(y, z);
      assert SegmentIds(x) + SegmentIds(y) + SegmentIds(z) == SegmentIds(x) + (SegmentIds(y) + SegmentIds(z));
      DeduplicateLeft(SegmentIds(x) + SegmentIds(y), SegmentIds(z));
      DeduplicateRight(SegmentIds(x), SegmentIds(y) + SegmentIds(z));
    }
  }

  /** Combining two properties with whatever comes before them is associative exactly if they are no explicit null
      marker in front of segments. */
  lemma AssociatesUnlessNull(b: Props, c: Props)
    ensures (forall a :: CombineProps(CombineProps(a, b), c) == CombineProps(a, CombineProps(b, c)))
            <==> !NullBeforeMarked(b, c)
  {
    if NullBeforeMarked(b, c) {
      var a := Props(Some(Str("x")), map[]);
      assert CombineProps(CombineProps(a, b), c) != CombineProps(a, CombineProps(b, c));
    } else {
      forall a
        ensures CombineProps(CombineProps(a, b), c) == CombineProps(a, CombineProps(b, c))
      {
        CombinePropsAssociates(a, b, c);
      }
    }
  }

  lemma CombineRawAssociates(a: Raw, b: Raw, c: Raw)
    ensures CombineRaw(CombineRaw(a, b), c) == CombineRaw(a, CombineRaw(b, c))
  {
    assert RawItems(a) + RawItems(b) + RawItems(c) == RawItems(a) + (RawItems(b) + RawItems(c));
  }

  lemma CombineAnnotationsAssociates(a: Option<seq<string>>, b: Option<seq<string>>, c: Option<seq<string>>)
    ensures CombineAnnotations(CombineAnnotations(a, b), c) == CombineAnnotations(a, CombineAnnotations(b, c))
  {
    if a.Some? && b.Some? && c.Some? {
      assert a.value + b.value + c.value == a.value + (b.value + c.value);
    }
  }

  /** Arguments combine associatively, failures included. */
  lemma CombineArgumentsAssociates(a: Arguments, b: Arguments, c: Arguments)
    ensures var ab, bc := CombineArguments(a, b), CombineArguments(b, c);
      (if ab.Some? then CombineArguments(ab.value, c) else None)
      == (if bc.Some? then CombineArguments(a, bc.value) else None)
  {
    if a.Truthy() && b.Truthy() && c.Truthy() {
      if a.TextArguments? && b.TextArguments? && c.TextArguments? {
        assert a.text + b.text + c.text == a.text + (b.text + c.text);
      } else if a.DictArguments? && b.DictArguments? && c.DictArguments? {
        assert a.entries + b.entries + c.entries == a.entries + (b.entries + c.entries);
      }
    }
  }
}
