/** The canonical text of tool arguments does not depend on the order dictionaries and sets are iterated in. */
module Canonical {
  import opened Sorting

  /** A mapping key, by the text it is rendered as: numbers, booleans and null by their JSON text, strings as they are,
      other scalars by the string the encoder's default makes of them. */
  datatype Scalar = LiteralKey(text: string) | WordKey(text: string)

  /** An argument. Sets and mappings list their members in iteration order. */
  datatype Argument =
    | Literal(text: string)
    | Word(text: string)
    | Listed(items: seq<Argument>)
    | Bag(items: seq<Argument>)
    | Mapping(entries: seq<Binding>)

  datatype Binding = Binding(key: Scalar, value: Argument)

  /** What is handed to the JSON encoder. */
  datatype Json =
    | JLiteral(text: string)
    | JWord(text: string)
    | JArray(items: seq<Json>)
    | JObject(members: seq<Member>)

  datatype Member = Member(name: string, value: Json)

  const MAPPING_ITEMS := "__mapping_items__"

  // ---------- Encoding ----------

  function Joined(texts: seq<string>): string {
    if texts == [] then ""
    else if |texts| == 1 then texts[0]
    else Joined(texts[..|texts| - 1]) + "," + texts[|texts| - 1]
  }

  function Items<T>(keyed: seq<Keyed<T>>): seq<T> {
    seq(|keyed|, i requires 0 <= i < |keyed| => keyed[i].item)
  }

  /** `json.dumps` with sorted keys and compact separators; `quote` is how it writes strings. */
  function Encode(quote: string -> string, j: Json): string
    decreases j, 0
  {
    match j
    case JLiteral(text) => text
    case JWord(text) => quote(text)
    case JArray(items) => "[" + Joined(EncodeAll(quote, items)) + "]"
    case JObject(members) => "{" + Joined(Items(Sort(Labelled(quote, members)))) + "}"
  }

  function EncodeAll(quote: string -> string, items: seq<Json>): (texts: seq<string>)
    ensures |texts| == |items| && forall i :: 0 <= i < |items| ==> texts[i] == Encode(quote, items[i])
    decreases items, 1
  {
    if items == [] then []
    else [Encode(quote, items[0])] + EncodeAll(quote, items[1..])
  }

  /** Every member as it is written, with its name to sort by. */
  function Labelled(quote: string -> string, members: seq<Member>): (texts: seq<Keyed<string>>)
    ensures |texts| == |members|
    ensures forall i :: 0 <= i < |members| ==>
              texts[i] == Keyed(members[i].name, quote(members[i].name) + ":" + Encode(quote, members[i].value))
    decreases members, 1
  {
    if members == [] then []
    else [Keyed(members[0].name, quote(members[0].name) + ":" + Encode(quote, members[0].value))]
         + Labelled(quote, members[1..])
  }

  // ---------- Normalization ----------

  function WithText(quote: string -> string, items: seq<Json>): seq<Keyed<Json>> {
    seq(|items|, i requires 0 <= i < |items| => Keyed(Encode(quote, items[i]), items[i]))
  }

  /** Sorted by `_canonical_sort_key`. */
  function SortedByText(quote: string -> string, items: seq<Json>): seq<Json> {
    Items(Sort(WithText(quote, items)))
  }

  function NormalizeKey(key: Scalar): Json {
    match key
    case LiteralKey(text) => JLiteral(text)
    case WordKey(text) => JWord(text)
  }

  /** `_canonical_mapping_key`. */
  function Names(entries: seq<Binding>): seq<string> {
    seq(|entries|, i requires 0 <= i < |entries| => entries[i].key.text)
  }

  predicate Distinct(names: seq<string>) {
    forall i, j :: 0 <= i < j < |names| ==> names[i] != names[j]
  }

  /** `_normalize_json_containers`: an object, or the sorted pairs where two keys are rendered alike. */
  function Normalize(quote: string -> string, v: Argument): Json
    decreases v, 0
  {
    match v
    case Literal(text) => JLiteral(text)
    case Word(text) => JWord(text)
    case Listed(items) => JArray(NormalizeAll(quote, items))
    case Bag(items) => JArray(SortedByText(quote, NormalizeAll(quote, items)))
    case Mapping(entries) =>
      if Distinct(Names(entries)) then JObject(NormalizeMembers(quote, entries))
      else JObject([Member(MAPPING_ITEMS, JArray(SortedByText(quote, NormalizePairs(quote, entries))))])
  }

  function NormalizeAll(quote: string -> string, items: seq<Argument>): (normalized: seq<Json>)
    ensures |normalized| == |items| && forall i :: 0 <= i < |items| ==> normalized[i] == Normalize(quote, items[i])
    decreases items, 1
  {
    if items == [] then []
    else [Normalize(quote, items[0])] + NormalizeAll(quote, items[1..])
  }

  function NormalizeMember(quote: string -> string, entry: Binding): Member
    decreases entry, 0
  {
    Member(entry.key.text, Normalize(quote, entry.value))
  }

  function NormalizePair(quote: string -> string, entry: Binding): Json
    decreases entry, 0
  {
    JArray([NormalizeKey(entry.key), Normalize(quote, entry.value)])
  }

  function NormalizeMembers(quote: string -> string, entries: seq<Binding>): (members: seq<Member>)
    ensures |members| == |entries| && forall i :: 0 <= i < |entries| ==> members[i] == NormalizeMember(quote, entries[i])
    decreases entries, 1
  {
    if entries == [] then [] else [NormalizeMember(quote, entries[0])] + NormalizeMembers(quote, entries[1..])
  }

  function NormalizePairs(quote: string -> string, entries: seq<Binding>): (pairs: seq<Json>)
    ensures |pairs| == |entries| && forall i :: 0 <= i < |entries| ==> pairs[i] == NormalizePair(quote, entries[i])
    decreases entries, 1
  {
    if entries == [] then [] else [NormalizePair(quote, entries[0])] + NormalizePairs(quote, entries[1..])
  }

  /** `canonicalize_effective_arguments`. */
  function Text(quote: string -> string, v: Argument): string {
    Encode(quote, Normalize(quote, v))
  }

  // ---------- Nothing is dropped ----------

  lemma SortKeepsLength(quote: string -> string, items: seq<Json>)
    ensures |SortedByText(quote, items)| == |items|
  {
    var keyed := WithText(quote, items);
    SortPermutes(keyed);
    SameMembers(Sort(keyed), keyed);
  }

  /** Normalization keeps every entry of a mapping: as a member under its own name, or in the list of pairs. */
  lemma NormalizeKeepsEntries(quote: string -> string, entries: seq<Binding>)
    ensures var j := Normalize(quote, Mapping(entries));
      && j.JObject?
      && if Distinct(Names(entries)) then |j.members| == |entries|
         else |j.members| == 1 && j.members[0].value.JArray? && |j.members[0].value.items| == |entries|
              && multiset(j.members[0].value.items) == multiset(NormalizePairs(quote, entries))
  {
    var pairs := NormalizePairs(quote, entries);
    SortKeepsLength(quote, pairs);
    SortedItemsPermute(WithText(quote, pairs));
    assert Items(WithText(quote, pairs)) == pairs;
  }

  lemma SortedItemsPermute<T>(keyed: seq<Keyed<T>>)
    ensures multiset(Items(Sort(keyed))) == multiset(Items(keyed))
  {
    SortPermutes(keyed);
    var f := (k: Keyed<T>) => k.item;
    MappedReordered(Sort(keyed), keyed, f);
    assert Items(keyed) == Mapped(keyed, f) && Items(Sort(keyed)) == Mapped(Sort(keyed), f);
  }

  // ---------- Iteration order ----------

  /** The same argument, with the members of its sets and mappings in some other order at every depth. `middle` lists
      them in the order of `v`, as they stand in `w`. */
  ghost predicate Same(v: Argument, w: Argument)
    decreases v, 0
  {
    match v
    case Literal(_) => w == v
    case Word(_) => w == v
    case Listed(items) => w.Listed? && AllSame(items, w.items)
    case Bag(items) => w.Bag? && exists middle :: multiset(middle) == multiset(w.items) && AllSame(items, middle)
    case Mapping(entries) =>
      w.Mapping? && exists middle :: multiset(middle) == multiset(w.entries) && AllBoundSame(entries, middle)
  }

  ghost predicate AllSame(v: seq<Argument>, w: seq<Argument>)
    decreases v, 1
  {
    |v| == |w| && (v == [] || (Same(v[0], w[0]) && AllSame(v[1..], w[1..])))
  }

  ghost predicate BoundSame(v: Binding, w: Binding)
    decreases v, 0
  {
    v.key == w.key && Same(v.value, w.value)
  }

  ghost predicate AllBoundSame(v: seq<Binding>, w: seq<Binding>)
    decreases v, 1
  {
    |v| == |w| && (v == [] || (BoundSame(v[0], w[0]) && AllBoundSame(v[1..], w[1..])))
  }

  function TextAll(quote: string -> string, items: seq<Argument>): seq<string> {
    seq(|items|, i requires 0 <= i < |items| => Text(quote, items[i]))
  }

  lemma EncodedAll(quote: string -> string, items: seq<Argument>)
    ensures EncodeAll(quote, NormalizeAll(quote, items)) == TextAll(quote, items)
  {
  }

  /** What a sorted list is written as depends only on how its items are written. */
  lemma SortedTexts(quote: string -> string, a: seq<Json>, b: seq<Json>)
    requires multiset(EncodeAll(quote, a)) == multiset(EncodeAll(quote, b))
    ensures EncodeAll(quote, SortedByText(quote, a)) == EncodeAll(quote, SortedByText(quote, b))
  {
    assert Keys(WithText(quote, a)) == EncodeAll(quote, a) && Keys(WithText(quote, b)) == EncodeAll(quote, b);
    SortedKeysAreUnique(WithText(quote, a), WithText(quote, b));
    SortedAreLabelled(quote, a);
    SortedAreLabelled(quote, b);
  }

  lemma SortedAreLabelled(quote: string -> string, items: seq<Json>)
    ensures EncodeAll(quote, SortedByText(quote, items)) == Keys(Sort(WithText(quote, items)))
  {
    var keyed := WithText(quote, items);
    var sorted := Sort(keyed);
    SortPermutes(keyed);
    forall i | 0 <= i < |sorted|
      ensures Encode(quote, sorted[i].item) == sorted[i].key
    {
      var j := Position(sorted, keyed, i);
    }
  }

  lemma {:induction false} SameTexts(quote: string -> string, v: seq<Argument>, w: seq<Argument>)
    requires AllSame(v, w)
    ensures TextAll(quote, v) == TextAll(quote, w)
    decreases v, 1
  {
    hide Text;
    if v != [] {
      SameText(quote, v[0], w[0]);
      SameTexts(quote, v[1..], w[1..]);
      assert TextAll(quote, v) == [Text(quote, v[0])] + TextAll(quote, v[1..]);
      assert TextAll(quote, w) == [Text(quote, w[0])] + TextAll(quote, w[1..]);
    }
  }

  /** The name and the written value of every entry. */
  function Bound(quote: string -> string, entries: seq<Binding>): seq<(Scalar, string)> {
    seq(|entries|, i requires 0 <= i < |entries| => (entries[i].key, Text(quote, entries[i].value)))
  }

  lemma {:induction false} SameBound(quote: string -> string, v: seq<Binding>, w: seq<Binding>)
    requires AllBoundSame(v, w)
    ensures Bound(quote, v) == Bound(quote, w)
    decreases v, 1
  {
    if v != [] {
      SameBinding(quote, v[0], w[0]);
      SameBound(quote, v[1..], w[1..]);
      assert Bound(quote, v) == [(v[0].key, Text(quote, v[0].value))] + Bound(quote, v[1..]);
      assert Bound(quote, w) == [(w[0].key, Text(quote, w[0].value))] + Bound(quote, w[1..]);
    }
  }

  lemma SameBinding(quote: string -> string, v: Binding, w: Binding)
    requires BoundSame(v, w)
    ensures v.key == w.key && Text(quote, v.value) == Text(quote, w.value)
    decreases v, 0
  {
    SameText(quote, v.value, w.value);
  }

  lemma BoundReordered(quote: string -> string, a: seq<Binding>, b: seq<Binding>)
    requires multiset(a) == multiset(b)
    ensures multiset(Bound(quote, a)) == multiset(Bound(quote, b))
  {
    var f := (e: Binding) => (e.key, Text(quote, e.value));
    MappedReordered(a, b, f);
    assert Bound(quote, a) == Mapped(a, f) && Bound(quote, b) == Mapped(b, f);
  }

  lemma TextsReordered(quote: string -> string, a: seq<Argument>, b: seq<Argument>)
    requires multiset(a) == multiset(b)
    ensures multiset(TextAll(quote, a)) == multiset(TextAll(quote, b))
  {
    var f := (e: Argument) => Text(quote, e);
    MappedReordered(a, b, f);
    assert TextAll(quote, a) == Mapped(a, f) && TextAll(quote, b) == Mapped(b, f);
  }

  /** The canonical text is invariant under any reordering of mappings and sets, at any depth. */
  lemma {:induction false} SameText(quote: string -> string, v: Argument, w: Argument)
    requires Same(v, w)
    ensures Text(quote, v) == Text(quote, w)
    decreases v, 0
  {
    match v
    case Listed(items) =>
      SameTexts(quote, items, w.items);
      EncodedAll(quote, items);
      EncodedAll(quote, w.items);
    case Bag(items) =>
      var middle :| multiset(middle) == multiset(w.items) && AllSame(items, middle);
      SameTexts(quote, items, middle);
      TextsReordered(quote, middle, w.items);
      BagText(quote, items, w.items);
    case Mapping(entries) =>
      var middle :| multiset(middle) == multiset(w.entries) && AllBoundSame(entries, middle);
      SameBound(quote, entries, middle);
      BoundReordered(quote, middle, w.entries);
      MappingText(quote, entries, w.entries);
    case _ =>
  }

  lemma BagText(quote: string -> string, v: seq<Argument>, w: seq<Argument>)
    requires multiset(TextAll(quote, v)) == multiset(TextAll(quote, w))
    ensures Text(quote, Bag(v)) == Text(quote, Bag(w))
  {
    hide Text, EncodeAll, NormalizeAll, TextAll, SortedByText;
    EncodedAll(quote, v);
    EncodedAll(quote, w);
    SortedTexts(quote, NormalizeAll(quote, v), NormalizeAll(quote, w));
    BagIsSorted(quote, v);
    BagIsSorted(quote, w);
  }

  lemma BagIsSorted(quote: string -> string, items: seq<Argument>)
    ensures Text(quote, Bag(items)) == "[" + Joined(EncodeAll(quote, SortedByText(quote, NormalizeAll(quote, items)))) + "]"
  {
  }

  // ---------- Mappings ----------

  lemma NamesReordered(quote: string -> string, v: seq<Binding>, w: seq<Binding>)
    requires multiset(Bound(quote, v)) == multiset(Bound(quote, w))
    ensures multiset(Names(v)) == multiset(Names(w))
  {
    var f := (b: (Scalar, string)) => b.0.text;
    MappedReordered(Bound(quote, v), Bound(quote, w), f);
    assert Names(v) == Mapped(Bound(quote, v), f) && Names(w) == Mapped(Bound(quote, w), f);
  }

  lemma {:induction false} DistinctMeansOnce(names: seq<string>)
    ensures Distinct(names) <==> forall n :: multiset(names)[n] <= 1
  {
    if names != [] {
      var init, last := names[..|names| - 1], names[|names| - 1];
      DistinctMeansOnce(init);
      assert names == init + [last];
      assert multiset(names) == multiset(init) + multiset{last};
      assert last in init <==> multiset(init)[last] >= 1;
      if Distinct(names) {
        assert forall n :: multiset(names)[n] <= 1;
      } else if Distinct(init) {
        assert last in init;
        assert multiset(names)[last] >= 2;
      } else {
        var n :| multiset(init)[n] > 1;
        assert multiset(names)[n] > 1;
      }
    }
  }

  lemma DistinctReordered(a: seq<string>, b: seq<string>)
    requires multiset(a) == multiset(b)
    ensures Distinct(a) <==> Distinct(b)
  {
    DistinctMeansOnce(a);
    DistinctMeansOnce(b);
  }

  /** How one entry is written as a member, and as a pair. */
  function MemberText(quote: string -> string, b: (Scalar, string)): Keyed<string> {
    Keyed(b.0.text, quote(b.0.text) + ":" + b.1)
  }

  function PairText(quote: string -> string, b: (Scalar, string)): string {
    "[" + Joined([Encode(quote, NormalizeKey(b.0)), b.1]) + "]"
  }

  lemma MembersWritten(quote: string -> string, entries: seq<Binding>)
    ensures Labelled(quote, NormalizeMembers(quote, entries))
         == Mapped(Bound(quote, entries), (b: (Scalar, string)) => MemberText(quote, b))
  {
  }

  lemma PairsWritten(quote: string -> string, entries: seq<Binding>)
    ensures EncodeAll(quote, NormalizePairs(quote, entries))
         == Mapped(Bound(quote, entries), (b: (Scalar, string)) => PairText(quote, b))
  {
    forall i | 0 <= i < |entries|
      ensures Encode(quote, NormalizePair(quote, entries[i])) == PairText(quote, Bound(quote, entries)[i])
    {
      var key, value := NormalizeKey(entries[i].key), Normalize(quote, entries[i].value);
      assert EncodeAll(quote, [key, value]) == [Encode(quote, key), Encode(quote, value)];
    }
  }

  lemma MappingText(quote: string -> string, v: seq<Binding>, w: seq<Binding>)
    requires multiset(Bound(quote, v)) == multiset(Bound(quote, w))
    ensures Text(quote, Mapping(v)) == Text(quote, Mapping(w))
  {
    NamesReordered(quote, v, w);
    DistinctReordered(Names(v), Names(w));
    if Distinct(Names(v)) {
      ObjectText(quote, v, w);
    } else {
      CollidingText(quote, v, w);
    }
  }

  lemma ObjectIs(quote: string -> string, v: seq<Binding>)
    requires Distinct(Names(v))
    ensures Text(quote, Mapping(v)) == "{" + Joined(Items(Sort(Labelled(quote, NormalizeMembers(quote, v))))) + "}"
    ensures KeysDiffer(Labelled(quote, NormalizeMembers(quote, v)))
  {
    hide Sort, Joined, Items;
    assert Normalize(quote, Mapping(v)) == JObject(NormalizeMembers(quote, v));
    LabelsDiffer(quote, v);
  }

  lemma LabelsDiffer(quote: string -> string, v: seq<Binding>)
    requires Distinct(Names(v))
    ensures KeysDiffer(Labelled(quote, NormalizeMembers(quote, v)))
  {
    hide Encode, Normalize;
    var a := Labelled(quote, NormalizeMembers(quote, v));
    assert forall i :: 0 <= i < |a| ==> a[i].key == Names(v)[i];
  }

  lemma ObjectText(quote: string -> string, v: seq<Binding>, w: seq<Binding>)
    requires multiset(Bound(quote, v)) == multiset(Bound(quote, w)) && Distinct(Names(v)) && Distinct(Names(w))
    ensures Text(quote, Mapping(v)) == Text(quote, Mapping(w))
  {
    hide Text, Labelled, NormalizeMembers, Sort, Mapped, Bound, Distinct, Joined, Items;
    var f := (b: (Scalar, string)) => MemberText(quote, b);
    MembersWritten(quote, v);
    MembersWritten(quote, w);
    MappedReordered(Bound(quote, v), Bound(quote, w), f);
    var a, b := Labelled(quote, NormalizeMembers(quote, v)), Labelled(quote, NormalizeMembers(quote, w));
    assert a == Mapped(Bound(quote, v), f) && b == Mapped(Bound(quote, w), f);
    ObjectIs(quote, v);
    ObjectIs(quote, w);
    SortedIsUnique(a, b);
  }

  lemma CollidingIs(quote: string -> string, v: seq<Binding>)
    requires !Distinct(Names(v))
    ensures Text(quote, Mapping(v))
         == Encode(quote, JObject([Member(MAPPING_ITEMS, JArray(SortedByText(quote, NormalizePairs(quote, v))))]))
  {
  }

  lemma ArrayText(quote: string -> string, a: seq<Json>, b: seq<Json>)
    requires EncodeAll(quote, a) == EncodeAll(quote, b)
    ensures Encode(quote, JArray(a)) == Encode(quote, JArray(b))
  {
  }

  lemma CollidingText(quote: string -> string, v: seq<Binding>, w: seq<Binding>)
    requires multiset(Bound(quote, v)) == multiset(Bound(quote, w)) && !Distinct(Names(v)) && !Distinct(Names(w))
    ensures Text(quote, Mapping(v)) == Text(quote, Mapping(w))
  {
    hide Text, Encode, EncodeAll, NormalizePairs, SortedByText, Mapped, Bound, Distinct;
    var f := (b: (Scalar, string)) => PairText(quote, b);
    PairsWritten(quote, v);
    PairsWritten(quote, w);
    MappedReordered(Bound(quote, v), Bound(quote, w), f);
    var a, b := NormalizePairs(quote, v), NormalizePairs(quote, w);
    assert EncodeAll(quote, a) == Mapped(Bound(quote, v), f) && EncodeAll(quote, b) == Mapped(Bound(quote, w), f);
    SortedTexts(quote, a, b);
    ArrayText(quote, SortedByText(quote, a), SortedByText(quote, b));
    CollidingIs(quote, v);
    CollidingIs(quote, w);
    SingleMember(quote, JArray(SortedByText(quote, a)), JArray(SortedByText(quote, b)));
  }

  lemma SingleMember(quote: string -> string, a: Json, b: Json)
    requires Encode(quote, a) == Encode(quote, b)
    ensures Encode(quote, JObject([Member(MAPPING_ITEMS, a)])) == Encode(quote, JObject([Member(MAPPING_ITEMS, b)]))
  {
    assert Labelled(quote, [Member(MAPPING_ITEMS, a)]) == Labelled(quote, [Member(MAPPING_ITEMS, b)]);
  }

  // ---------- Truncation ----------

  function Max(a: int, b: int): int {
    if a < b then b else a
  }

  /** Python's `value[:n]`. */
  function SliceTo(value: string, n: int): string {
    if n < 0 then value[..Max(0, |value| + n)] else if n < |value| then value[..n] else value
  }

  /** Python's `value[n:]`. */
  function SliceFrom(value: string, n: int): string {
    if n < 0 then value[Max(0, |value| + n)..] else if n < |value| then value[n..] else ""
  }

  /** `_middle_truncate`. */
  function MiddleTruncate(marker: char, value: string, maxChars: int): string {
    if |value| <= maxChars then value
    else
      var available := maxChars - 1;
      var left := (available + 1) / 2;
      var right := available - left;
      SliceTo(value, left) + [marker] + SliceFrom(value, |value| - right)
  }

  /** Truncation hits the limit exactly, for every limit of at least one character and no other that cuts. */
  lemma TruncationIsExact(marker: char, value: string, maxChars: nat)
    ensures |MiddleTruncate(marker, value, maxChars)| == (if |value| <= maxChars then |value| else maxChars)
       <==> |value| <= maxChars || maxChars >= 1
  {
  }

  /** What is left of a longer value: as much from its end as from its beginning, the beginning winning ties. */
  lemma TruncationKeepsEnds(marker: char, value: string, maxChars: nat)
    requires 1 <= maxChars < |value|
    ensures var left, right := maxChars / 2, (maxChars - 1) / 2;
      && left + 1 + right == maxChars
      && MiddleTruncate(marker, value, maxChars) == value[..left] + [marker] + value[|value| - right..]
  {
  }
}
