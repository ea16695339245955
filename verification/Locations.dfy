/** The readings of one part of an error location at one schema node. */
module Locations {
  import opened Values
  import opened Schemas

  /** One part of an error location. A float is given by its `str` and, when it equals 0 or 1, that truth. */
  datatype Part =
    | StrPart(s: string)
    | BoolPart(b: bool)
    | IntPart(i: int)
    | FloatPart(text: string, unit: Option<bool>)
    | OtherPart

  /** What a blind or opaque marker skip leaves possible at the node it stayed at. */
  datatype Skip = NoSkip | Opaque | UnionMarker | Blind

  /** Everything a location search reads. `alnum` is Python's `str.isalnum` on one character. */
  datatype Query = Query(
    schema: Schema,
    location: seq<Part>,
    aliases: map<string, string>,
    display: map<string, string>,
    usesFieldNames: bool,
    alnum: char -> bool)

  /** One reading of a part: its weight in halves, the node and skip state it leads to, and the part it
      adds to the displayed path, if any. */
  datatype Move = Move(weight: int, node: Id, skip: Skip, shown: Option<Part>)

  const DISCRIMINATOR_SELECT := 8
  const EXACT := 6
  const TITLE_SELECT := 4
  const MARKER_SKIP := 3
  const ADDITIONAL := 2
  const DESPERATE_SKIP := 1
  const BLIND_SELECT := -2000

  const MAX_MARKER_SCAN_CHARS := 4096
  const MAX_CORROBORATION_NAMES := 40

  // ---------- Text ----------

  predicate OccursAt(part: string, name: string, i: nat) {
    i + |name| <= |part| && part[i..i + |name|] == name
  }

  predicate Contains(part: string, name: string) {
    exists i: nat :: i <= |part| && OccursAt(part, name, i)
  }

  predicate StartsWith(part: string, prefix: string) {
    OccursAt(part, prefix, 0)
  }

  function DigitChar(d: nat): char
    requires d < 10
  {
    '0' + d as char
  }

  function NatText(n: nat): string {
    if n < 10 then [DigitChar(n)] else NatText(n / 10) + [DigitChar(n % 10)]
  }

  /** `str(i)`. */
  function IntText(i: int): string {
    if i < 0 then "-" + NatText(-i) else NatText(i)
  }

  function AfterLastSlash(text: string): string {
    var parts := Split(text);
    parts[|parts| - 1]
  }

  // ---------- Schema queries ----------

  function ObjectsIn(schema: Schema, items: seq<Id>): seq<Id> {
    if items == [] then []
    else (if schema.IsObj(items[0]) then [items[0]] else []) + ObjectsIn(schema, items[1..])
  }

  function ResolveAll(schema: Schema, items: seq<Id>): (resolved: seq<Id>)
    ensures |resolved| == |items|
  {
    seq(|items|, i requires 0 <= i < |items| => Resolve(schema, items[i]))
  }

  function Variants(schema: Schema, node: Id): seq<Id> {
    var resolved := Resolve(schema, node);
    var any := schema.ListField(resolved, "anyOf");
    var one := schema.ListField(resolved, "oneOf");
    var all := schema.ListField(resolved, "allOf");
    if any.Some? then ResolveAll(schema, ObjectsIn(schema, any.value))
    else if one.Some? then ResolveAll(schema, ObjectsIn(schema, one.value))
    else if all.Some? then ResolveAll(schema, ObjectsIn(schema, all.value))
    else [resolved]
  }

  predicate IsUnion(schema: Schema, resolved: Id) {
    schema.ListField(resolved, "anyOf").Some? || schema.ListField(resolved, "oneOf").Some?
  }

  predicate IsNull(schema: Schema, variant: Id) {
    schema.TextField(variant, "type") == Some("null")
  }

  function NonNullCount(schema: Schema, variants: seq<Id>): nat {
    if variants == [] then 0
    else (if IsNull(schema, variants[0]) then 0 else 1) + NonNullCount(schema, variants[1..])
  }

  /** Whether a union over these variants writes branch markers. */
  predicate MarkersExpected(schema: Schema, variants: seq<Id>) {
    NonNullCount(schema, variants) >= 2
  }

  // ---------- Variant selection ----------

  datatype Selection = Selection(variant: Id, viaDiscriminator: bool)

  /** The discriminator keys a marker may stand for. */
  function MappingKeys(marker: Part): Option<seq<string>> {
    match marker
    case StrPart(s) => Some([s])
    case BoolPart(b) => Some(if b then ["True", "true"] else ["False", "false"])
    case IntPart(i) => Some([IntText(i)] + (if i == 0 then ["False"] else if i == 1 then ["True"] else []))
    case FloatPart(text, unit) => Some([text] + (if unit.None? then [] else if unit.value then ["True"] else ["False"]))
    case OtherPart => None
  }

  function SelectMapped(schema: Schema, mapping: Id, keys: seq<string>): Option<Id> {
    if keys == [] then None
    else
      var ref := schema.TextField(mapping, keys[0]);
      var resolved := if ref.Some? then ResolveText(schema, ref.value) else None;
      if resolved.Some? && schema.Field(resolved.value, "$ref").None? then resolved
      else SelectMapped(schema, mapping, keys[1..])
  }

  function SelectTitled(schema: Schema, variants: seq<Id>, title: string): Option<Id> {
    if variants == [] then None
    else if schema.TextField(variants[0], "title") == Some(title) then Some(variants[0])
    else SelectTitled(schema, variants[1..], title)
  }

  function SelectVariant(schema: Schema, union: Id, marker: Part): Option<Selection> {
    var keys := MappingKeys(marker);
    if keys.None? then None
    else
      var discriminator := schema.ObjField(union, "discriminator");
      var mapping := if discriminator.Some? then schema.ObjField(discriminator.value, "mapping") else None;
      var mapped := if mapping.Some? then SelectMapped(schema, mapping.value, keys.value) else None;
      if mapped.Some? then Some(Selection(mapped.value, true))
      else if marker.StrPart? then
        var titled := SelectTitled(schema, Variants(schema, union), marker.s);
        if titled.Some? then Some(Selection(titled.value, false)) else None
      else None
  }

  // ---------- Marker skips ----------

  predicate MarkerTypeName(name: string) {
    name in {
      "str", "int", "float", "bool", "none", "list", "dict", "set", "frozenset", "tuple", "bytes", "bytearray",
      "date", "datetime", "time", "timedelta", "decimal", "complex", "enum", "literal", "json", "url", "uuid",
      "callable", "model", "typed-dict", "dataclass", "is-instance", "is-subclass"
    }
  }

  predicate MarkerLike(schema: Schema, part: Part, variants: seq<Id>) {
    if !part.StrPart? then true
    else if |part.s| > MAX_MARKER_SCAN_CHARS then false
    else if '[' in part.s || '-' in part.s then true
    else MarkerTypeName(part.s) || exists k :: 0 <= k < |variants| && schema.TextField(variants[k], "title") == Some(part.s)
  }

  predicate IdentifierChar(c: char, alnum: char -> bool) {
    alnum(c) || c == '_'
  }

  /** Some occurrence of the name is bounded by non-identifier characters. */
  predicate Corroborated(name: string, part: string, alnum: char -> bool) {
    exists i: nat :: i <= |part| && OccursAt(part, name, i)
      && (i > 0 ==> !IdentifierChar(part[i - 1], alnum))
      && (i + |name| < |part| ==> !IdentifierChar(part[i + |name|], alnum))
  }

  function ReferenceName(ref: string): string {
    Decode(AfterLastSlash(ref))
  }

  /** The names of an item itself: the base name of its reference and its title. */
  function OwnNames(schema: Schema, item: Id): seq<string> {
    var ref := schema.TextField(item, "$ref");
    var title := schema.TextField(Resolve(schema, item), "title");
    (if ref.Some? && ref.value != "" then [ReferenceName(ref.value)] else [])
    + (if title.Some? && title.value != "" then [title.value] else [])
  }

  function MappingNames(schema: Schema, mapping: Id, tags: seq<string>): seq<string> {
    if tags == [] then []
    else
      var field := schema.Field(mapping, tags[0]);
      var target := schema.TextField(mapping, tags[0]);
      (if field.None? then []
       else (if tags[0] != "" then [tags[0]] else [])
            + (if target.Some? && target.value != "" then [ReferenceName(target.value)] else []))
      + MappingNames(schema, mapping, tags[1..])
  }

  function DiscriminatorNames(schema: Schema, resolved: Id): seq<string> {
    var discriminator := schema.ObjField(resolved, "discriminator");
    var mapping := if discriminator.Some? then schema.ObjField(discriminator.value, "mapping") else None;
    if mapping.None? then [] else MappingNames(schema, mapping.value, schema.At(mapping.value).order)
  }

  function MembersOf(schema: Schema, node: Id): seq<Id> {
    var any := schema.ListField(node, "anyOf");
    var one := schema.ListField(node, "oneOf");
    ObjectsIn(schema, if any.Some? then any.value else []) + ObjectsIn(schema, if one.Some? then one.value else [])
  }

  function NamesOfMembers(schema: Schema, members: seq<Id>): seq<string> {
    if members == [] then [] else OwnNames(schema, members[0]) + NamesOfMembers(schema, members[1..])
  }

  function NamesOfItems(schema: Schema, items: seq<Id>): seq<string> {
    if items == [] then []
    else
      var resolved := Resolve(schema, items[0]);
      OwnNames(schema, items[0]) + DiscriminatorNames(schema, resolved)
      + NamesOfMembers(schema, MembersOf(schema, resolved)) + NamesOfItems(schema, items[1..])
  }

  /** The names a marker of the union at `node` could mention, one nested union deep. */
  function ReferenceNames(schema: Schema, node: Id): seq<string> {
    NamesOfItems(schema, MembersOf(schema, node))
  }

  predicate NamesUnion(query: Query, part: Part, node: Id) {
    && part.StrPart? && |part.s| <= MAX_MARKER_SCAN_CHARS && Contains(part.s, "union[")
    && var names := ReferenceNames(query.schema, node);
       exists k :: 0 <= k < |names| && k < MAX_CORROBORATION_NAMES && Corroborated(names[k], part.s, query.alnum)
  }

  /** A wrapper marker written without the wrapped schema. */
  predicate SchemalessWrapper(part: Part) {
    part.StrPart? && (StartsWith(part.s, "function-wrap[") || StartsWith(part.s, "function-plain["))
  }

  function SkipFor(query: Query, part: Part, node: Id): Skip {
    if NamesUnion(query, part, node) then UnionMarker
    else if SchemalessWrapper(part) then Blind
    else Skip.Opaque
  }

  // ---------- Moves ----------

  function SelectMoves(query: Query, index: nat, resolved: Id, variants: seq<Id>, skip: Skip): seq<Move>
    requires index < |query.location|
  {
    var selected := SelectVariant(query.schema, resolved, query.location[index]);
    if selected.None? then []
    else
      var weight :=
        if skip.UnionMarker? then TITLE_SELECT
        else if skip.Blind? then BLIND_SELECT
        else if selected.value.viaDiscriminator || MarkersExpected(query.schema, variants) then DISCRIMINATOR_SELECT
        else TITLE_SELECT;
      [Move(weight, selected.value.variant, NoSkip, None)]
  }

  /** Selections inside variants that are unions themselves. */
  function NestedMoves(query: Query, index: nat, resolved: Id, variants: seq<Id>, skip: Skip): seq<Move>
    requires index < |query.location|
  {
    if variants == [] then []
    else
      var part := query.location[index];
      var selected := SelectVariant(query.schema, resolved, part);
      var nested := if IsUnion(query.schema, variants[0]) then SelectVariant(query.schema, variants[0], part) else None;
      (if nested.None? || (selected.Some? && nested.value.variant == selected.value.variant) then []
       else
         var weight :=
           if skip.Blind? then BLIND_SELECT
           else if nested.value.viaDiscriminator || MarkersExpected(query.schema, Variants(query.schema, variants[0]))
           then DISCRIMINATOR_SELECT
           else TITLE_SELECT;
         [Move(weight, nested.value.variant, NoSkip, None)])
      + NestedMoves(query, index, resolved, variants[1..], skip)
  }

  datatype Candidate = Candidate(child: Option<Id>, weight: int)

  /** `properties.get(key)` when it is a mapping. */
  function Property(schema: Schema, properties: Option<Id>, key: Option<string>): Option<Id> {
    if properties.None? || key.None? then None else schema.ObjField(properties.value, key.value)
  }

  function ExactChild(query: Query, index: nat, name: string, variant: Id): Option<Id> {
    var properties := query.schema.ObjField(variant, "properties");
    var mapped := if index == 0 && name in query.aliases then Some(query.aliases[name]) else None;
    var byField := if query.usesFieldNames then Property(query.schema, properties, mapped) else None;
    var byName := Property(query.schema, properties, Some(name));
    if byField.Some? then byField
    else if byName.Some? then byName
    else Property(query.schema, properties, mapped)
  }

  function IntOf(part: Part): Option<int> {
    match part
    case IntPart(i) => Some(i)
    case BoolPart(b) => Some(if b then 1 else 0)
    case _ => None
  }

  /** Indexing past the front of a list: what Python raises `IndexError` for. */
  predicate IndexFails(query: Query, index: nat, variant: Id)
    requires index < |query.location|
  {
    var i := IntOf(query.location[index]);
    var prefix := query.schema.ListField(variant, "prefixItems");
    i.Some? && prefix.Some? && i.value < -|prefix.value|
  }

  function ItemChild(schema: Schema, i: int, variant: Id): Option<Id> {
    var prefix := schema.ListField(variant, "prefixItems");
    if prefix.Some? && i < |prefix.value| then
      if i >= 0 then Some(prefix.value[i])
      else if i >= -|prefix.value| then Some(prefix.value[|prefix.value| + i])
      else None
    else schema.Field(variant, "items")
  }

  function Candidates(query: Query, index: nat, variant: Id): seq<Candidate>
    requires index < |query.location|
  {
    var part := query.location[index];
    if part.StrPart? then
      [Candidate(ExactChild(query, index, part.s, variant), EXACT),
       Candidate(query.schema.Field(variant, "additionalProperties"), ADDITIONAL)]
    else if IntOf(part).Some? then [Candidate(ItemChild(query.schema, IntOf(part).value, variant), EXACT)]
    else []
  }

  function AllCandidates(query: Query, index: nat, variants: seq<Id>): seq<Candidate>
    requires index < |query.location|
  {
    if variants == [] then [] else Candidates(query, index, variants[0]) + AllCandidates(query, index, variants[1..])
  }

  function Shown(query: Query, index: nat): Part
    requires index < |query.location|
  {
    var part := query.location[index];
    if part.StrPart? && index == 0 && part.s in query.display then StrPart(query.display[part.s]) else part
  }

  /** Navigation into children, each child object once. */
  function ChildMoves(query: Query, index: nat, candidates: seq<Candidate>, seen: set<Id>): seq<Move>
    requires index < |query.location|
  {
    if candidates == [] then []
    else
      var child := candidates[0].child;
      if child.None? || !query.schema.IsObj(child.value) || child.value in seen
      then ChildMoves(query, index, candidates[1..], seen)
      else
        [Move(candidates[0].weight, child.value, NoSkip, Some(Shown(query, index)))]
        + ChildMoves(query, index, candidates[1..], seen + {child.value})
  }

  function SkipMoves(query: Query, index: nat, resolved: Id, variants: seq<Id>, skip: Skip): seq<Move>
    requires index < |query.location|
  {
    var part := query.location[index];
    var next := SkipFor(query, part, resolved);
    if IsUnion(query.schema, resolved) && (skip.NoSkip? || skip.Blind?) && MarkersExpected(query.schema, variants)
       && (skip.NoSkip? || !next.Opaque?)
    then [Move(if MarkerLike(query.schema, part, variants) then MARKER_SKIP else DESPERATE_SKIP, resolved, next, None)]
    else []
  }

  /** All readings of the part at `index`. */
  function Expand(query: Query, index: nat, node: Id, skip: Skip): seq<Move>
    requires index < |query.location|
  {
    var resolved := Resolve(query.schema, node);
    var variants := Variants(query.schema, resolved);
    (if IsUnion(query.schema, resolved) && !skip.Opaque?
     then SelectMoves(query, index, resolved, variants, skip) + NestedMoves(query, index, resolved, variants, skip)
     else [])
    + ChildMoves(query, index, AllCandidates(query, index, variants), {})
    + SkipMoves(query, index, resolved, variants, skip)
  }

  predicate ExpandFails(query: Query, index: nat, node: Id)
    requires index < |query.location|
  {
    var variants := Variants(query.schema, Resolve(query.schema, node));
    exists k :: 0 <= k < |variants| && IndexFails(query, index, variants[k])
  }

  // ---------- What every reading weighs ----------

  lemma {:induction false} NestedWeights(query: Query, index: nat, resolved: Id, variants: seq<Id>, skip: Skip)
    requires index < |query.location|
    ensures forall m :: m in NestedMoves(query, index, resolved, variants, skip) ==>
              && m.skip.NoSkip?
              && (if skip.Blind? then m.weight == BLIND_SELECT else m.weight in {DISCRIMINATOR_SELECT, TITLE_SELECT})
  {
    if variants != [] {
      NestedWeights(query, index, resolved, variants[1..], skip);
    }
  }

  lemma {:induction false} ChildWeights(query: Query, index: nat, candidates: seq<Candidate>, seen: set<Id>)
    requires index < |query.location|
    requires forall c :: c in candidates ==> c.weight in {EXACT, ADDITIONAL}
    ensures forall m :: m in ChildMoves(query, index, candidates, seen) ==>
              m.weight in {EXACT, ADDITIONAL} && m.skip.NoSkip?
    decreases |candidates|
  {
    if candidates != [] {
      var child := candidates[0].child;
      ChildWeights(query, index, candidates[1..], if child.Some? then seen + {child.value} else seen);
      ChildWeights(query, index, candidates[1..], seen);
    }
  }

  lemma {:induction false} CandidateWeights(query: Query, index: nat, variants: seq<Id>)
    requires index < |query.location|
    ensures forall c :: c in AllCandidates(query, index, variants) ==> c.weight in {EXACT, ADDITIONAL}
  {
    if variants != [] {
      CandidateWeights(query, index, variants[1..]);
    }
  }

  /** Selection after a blind skip is the only reading that weighs less than half a point, no reading weighs
      more than authoritative selection, and only a marker skip of at most 1.5 points leaves a skip state. */
  lemma MoveWeights(query: Query, index: nat, node: Id, skip: Skip, move: Move)
    requires index < |query.location|
    requires move in Expand(query, index, node, skip)
    ensures DESPERATE_SKIP <= move.weight <= DISCRIMINATOR_SELECT || move.weight == BLIND_SELECT
    ensures move.weight == BLIND_SELECT ==> skip.Blind? && move.skip.NoSkip?
    ensures !move.skip.NoSkip? ==> move.weight in {MARKER_SKIP, DESPERATE_SKIP}
  {
    var resolved := Resolve(query.schema, node);
    var variants := Variants(query.schema, resolved);
    NestedWeights(query, index, resolved, variants, skip);
    CandidateWeights(query, index, variants);
    ChildWeights(query, index, AllCandidates(query, index, variants), {});
  }
}
