/** What the parts of an error location spell, told from the schema: tags and titles of unions, members, markers. */
module SchemaPaths {
  import opened Values
  import opened Schemas
  import opened Locations

  // ---------- References ----------

  /** Following a reference, and `n` more on the way, comes to a node that is no reference itself. */
  ghost predicate Leads(schema: Schema, ref: string, node: Id, n: nat)
    decreases n
  {
    var target := Target(schema, ref);
    && target.Some?
    && if n == 0 then schema.Field(target.value, "$ref").None? && node == target.value
       else schema.TextField(target.value, "$ref").Some?
            && Leads(schema, schema.TextField(target.value, "$ref").value, node, n - 1)
  }

  ghost predicate Names(schema: Schema, ref: string, node: Id) {
    exists n: nat :: Leads(schema, ref, node, n)
  }

  lemma {:induction false} LeadsOnce(schema: Schema, ref: string, a: Id, m: nat, b: Id, n: nat)
    requires Leads(schema, ref, a, m) && Leads(schema, ref, b, n)
    ensures a == b && m == n
    decreases m
  {
    hide Target;
    if m > 0 && n > 0 {
      LeadsOnce(schema, schema.TextField(Target(schema, ref).value, "$ref").value, a, m - 1, b, n - 1);
    }
  }

  ghost predicate LeadsLater(schema: Schema, ref: string, node: Id, n: nat) {
    exists m: nat :: m >= n && Leads(schema, ref, node, m)
  }

  /** References that lead somewhere are never followed twice on the way. */
  lemma {:induction false} LeadsResolve(schema: Schema, ref: string, node: Id, n: nat, visited: set<string>)
    requires Leads(schema, ref, node, n)
    requires forall v :: v in visited ==> LeadsLater(schema, v, node, n)
    ensures ResolveFrom(schema, Target(schema, ref).value, visited) == node
    decreases n
  {
    hide Target;
    var target := Target(schema, ref).value;
    if n > 0 {
      var next := schema.TextField(target, "$ref").value;
      if next in visited {
        var m: nat :| m >= n && Leads(schema, next, node, m);
        LeadsOnce(schema, next, node, m, node, n - 1);
        assert false;
      } else {
        assert Leads(schema, next, node, n - 1);
        TextIsText(schema, target, "$ref");
        var fewer: nat, more := n - 1, visited + {next};
        forall v | v in more
          ensures LeadsLater(schema, v, node, fewer)
        {
          if v in visited {
            var m: nat :| m >= n && Leads(schema, v, node, m);
          } else {
            assert Leads(schema, v, node, fewer);
          }
        }
        LeadsResolve(schema, next, node, fewer, more);
      }
    }
  }

  /** What resolution finds without a reference is what the reference names. */
  lemma {:induction false} ResolvedIsNamed(schema: Schema, ref: string, visited: set<string>)
    requires Target(schema, ref).Some?
    requires schema.Field(ResolveFrom(schema, Target(schema, ref).value, visited), "$ref").None?
    ensures Names(schema, ref, ResolveFrom(schema, Target(schema, ref).value, visited))
    decreases |schema.Texts() - visited|
  {
    hide Target;
    var target := Target(schema, ref).value;
    var node := ResolveFrom(schema, target, visited);
    var next := schema.TextField(target, "$ref");
    if next.None? || next.value in visited || Target(schema, next.value).None? {
      assert Leads(schema, ref, node, 0);
    } else {
      TextIsText(schema, target, "$ref");
      SmallerSet(schema.Texts() - (visited + {next.value}), schema.Texts() - visited);
      ResolvedIsNamed(schema, next.value, visited + {next.value});
      var n: nat :| Leads(schema, next.value, node, n);
      assert Leads(schema, ref, node, n + 1);
    }
  }

  lemma NamesIsResolved(schema: Schema, ref: string, node: Id)
    ensures Names(schema, ref, node) <==>
            ResolveText(schema, ref) == Some(node) && schema.Field(node, "$ref").None?
  {
    hide Target;
    if Names(schema, ref, node) {
      var n: nat :| Leads(schema, ref, node, n);
      assert LeadsLater(schema, ref, node, n);
      LeadsResolve(schema, ref, node, n, {ref});
      LeadsEnds(schema, ref, node, n);
    }
    if ResolveText(schema, ref) == Some(node) && schema.Field(node, "$ref").None? {
      ResolvedIsNamed(schema, ref, {ref});
    }
  }

  lemma {:induction false} LeadsEnds(schema: Schema, ref: string, node: Id, n: nat)
    requires Leads(schema, ref, node, n)
    ensures schema.Field(node, "$ref").None?
    decreases n
  {
    hide Target;
    if n > 0 {
      LeadsEnds(schema, schema.TextField(Target(schema, ref).value, "$ref").value, node, n - 1);
    }
  }

  // ---------- Branches ----------

  /** The mappings in a list, resolved, in order: what is listed at `i` is found among them behind those before it. */
  ghost predicate Branches(schema: Schema, items: seq<Id>, variants: seq<Id>) {
    if items == [] then variants == []
    else if schema.IsObj(items[0]) then
      variants != [] && variants[0] == Resolve(schema, items[0]) && Branches(schema, items[1..], variants[1..])
    else Branches(schema, items[1..], variants)
  }

  lemma {:induction false} ObjectsBranch(schema: Schema, items: seq<Id>)
    ensures Branches(schema, items, ResolveAll(schema, ObjectsIn(schema, items)))
  {
    hide Resolve;
    if items != [] {
      ObjectsBranch(schema, items[1..]);
      var rest := ObjectsIn(schema, items[1..]);
      if schema.IsObj(items[0]) {
        assert ResolveAll(schema, [items[0]] + rest)[1..] == ResolveAll(schema, rest);
      } else {
        assert [] + rest == rest;
      }
    }
  }

  /** The branches of a node are those of its first combination, and unions are the combinations that choose; a node that
      combines nothing is its own branch. */
  lemma VariantsBranch(schema: Schema, node: Id)
    ensures var at, variants := Resolve(schema, node), Variants(schema, node);
      var any, one, all := schema.ListField(at, "anyOf"), schema.ListField(at, "oneOf"), schema.ListField(at, "allOf");
      && (IsUnion(schema, at) <==> any.Some? || one.Some?)
      && (any.Some? ==> Branches(schema, any.value, variants))
      && (any.None? && one.Some? ==> Branches(schema, one.value, variants))
      && (any.None? && one.None? && all.Some? ==> Branches(schema, all.value, variants))
      && (any.None? && one.None? && all.None? ==> variants == [at])
  {
    hide Resolve, ResolveAll, ObjectsIn, Branches;
    var at := Resolve(schema, node);
    forall items
      ensures Branches(schema, items, ResolveAll(schema, ObjectsIn(schema, items)))
    {
      ObjectsBranch(schema, items);
    }
  }

  // ---------- Names ----------

  /** A mapping among the branches that a union lists. */
  predicate Lists(schema: Schema, union: Id, item: Id) {
    && schema.IsObj(item)
    && ((schema.ListField(union, "anyOf").Some? && item in schema.ListField(union, "anyOf").value)
        || (schema.ListField(union, "oneOf").Some? && item in schema.ListField(union, "oneOf").value))
  }

  /** The last token of what it refers to, or its title. */
  predicate NamedAs(schema: Schema, item: Id, name: string) {
    var ref, title := schema.TextField(item, "$ref"), schema.TextField(Resolve(schema, item), "title");
    || (ref.Some? && ref.value != "" && name == Decode(AfterLastSlash(ref.value)))
    || (name != "" && title == Some(name))
  }

  /** A tag of its discriminator, or the last token of what a tag refers to. */
  predicate TaggedAs(schema: Schema, node: Id, name: string) {
    var discriminator := schema.ObjField(node, "discriminator");
    && discriminator.Some?
    && var mapping := schema.ObjField(discriminator.value, "mapping");
       && mapping.Some?
       && exists tag :: tag in schema.At(mapping.value).order && schema.Field(mapping.value, tag).Some? && TagGives(schema, mapping.value, tag, name)
  }

  predicate TagGives(schema: Schema, mapping: Id, tag: string, name: string) {
    var target := schema.TextField(mapping, tag);
    (tag != "" && name == tag) || (target.Some? && target.value != "" && name == Decode(AfterLastSlash(target.value)))
  }

  lemma {:induction false} ObjectsAre(schema: Schema, items: seq<Id>, item: Id)
    ensures item in ObjectsIn(schema, items) <==> item in items && schema.IsObj(item)
  {
    if items != [] {
      ObjectsAre(schema, items[1..], item);
    }
  }

  lemma MembersAre(schema: Schema, union: Id, item: Id)
    ensures item in MembersOf(schema, union) <==> Lists(schema, union, item)
  {
    hide ObjectsIn;
    var any, one := schema.ListField(union, "anyOf"), schema.ListField(union, "oneOf");
    ObjectsAre(schema, if any.Some? then any.value else [], item);
    ObjectsAre(schema, if one.Some? then one.value else [], item);
  }

  lemma OwnNamesAre(schema: Schema, item: Id, name: string)
    ensures name in OwnNames(schema, item) <==> NamedAs(schema, item, name)
  {
    hide Resolve, Decode, AfterLastSlash;
  }

  lemma {:induction false} MappingNamesAre(schema: Schema, mapping: Id, tags: seq<string>, name: string)
    ensures name in MappingNames(schema, mapping, tags) <==>
            exists tag :: tag in tags && schema.Field(mapping, tag).Some? && TagGives(schema, mapping, tag, name)
  {
    hide Decode, AfterLastSlash;
    if tags != [] {
      MappingNamesAre(schema, mapping, tags[1..], name);
      assert forall tag :: tag in tags <==> tag == tags[0] || tag in tags[1..];
    }
  }

  lemma TagNamesAre(schema: Schema, node: Id, name: string)
    ensures name in DiscriminatorNames(schema, node) <==> TaggedAs(schema, node, name)
  {
    hide MappingNames, TagGives;
    var discriminator := schema.ObjField(node, "discriminator");
    if discriminator.Some? && schema.ObjField(discriminator.value, "mapping").Some? {
      var mapping := schema.ObjField(discriminator.value, "mapping").value;
      MappingNamesAre(schema, mapping, schema.At(mapping).order, name);
    }
  }

  lemma {:induction false} MemberNamesAre(schema: Schema, members: seq<Id>, name: string)
    ensures name in NamesOfMembers(schema, members) <==> exists m :: m in members && NamedAs(schema, m, name)
  {
    hide OwnNames, NamedAs;
    if members != [] {
      MemberNamesAre(schema, members[1..], name);
      OwnNamesAre(schema, members[0], name);
      assert forall m :: m in members <==> m == members[0] || m in members[1..];
    }
  }

  /** The names of one branch of a union: its own, its tags, and those of the branches within it. */
  ghost predicate BranchNames(schema: Schema, item: Id, name: string) {
    || NamedAs(schema, item, name)
    || TaggedAs(schema, Resolve(schema, item), name)
    || exists m :: Lists(schema, Resolve(schema, item), m) && NamedAs(schema, m, name)
  }

  lemma BranchNamesAre(schema: Schema, item: Id, name: string)
    ensures var resolved := Resolve(schema, item);
      name in OwnNames(schema, item) + DiscriminatorNames(schema, resolved) + NamesOfMembers(schema, MembersOf(schema, resolved))
      <==> BranchNames(schema, item, name)
  {
    hide OwnNames, NamedAs, TaggedAs, DiscriminatorNames, Lists, MembersOf, NamesOfMembers, Resolve;
    var resolved := Resolve(schema, item);
    OwnNamesAre(schema, item, name);
    TagNamesAre(schema, resolved, name);
    MemberNamesAre(schema, MembersOf(schema, resolved), name);
    forall m
      ensures m in MembersOf(schema, resolved) <==> Lists(schema, resolved, m)
    {
      MembersAre(schema, resolved, m);
    }
  }

  lemma {:induction false} ItemNamesAre(schema: Schema, items: seq<Id>, name: string)
    ensures name in NamesOfItems(schema, items) <==> exists item :: item in items && BranchNames(schema, item, name)
  {
    hide BranchNames, OwnNames, DiscriminatorNames, MembersOf, NamesOfMembers, Resolve;
    if items != [] {
      ItemNamesAre(schema, items[1..], name);
      BranchNamesAre(schema, items[0], name);
      var resolved := Resolve(schema, items[0]);
      var here := OwnNames(schema, items[0]) + DiscriminatorNames(schema, resolved)
                  + NamesOfMembers(schema, MembersOf(schema, resolved));
      assert NamesOfItems(schema, items) == here + NamesOfItems(schema, items[1..]);
      assert forall item :: item in items <==> item == items[0] || item in items[1..];
    }
  }

  /** The names that the marker of a union can show: those of its branches, one nested union deep. */
  lemma UnionNamesAre(schema: Schema, union: Id, name: string)
    ensures name in ReferenceNames(schema, union) <==>
            exists item :: Lists(schema, union, item) && BranchNames(schema, item, name)
  {
    hide BranchNames, NamesOfItems, MembersOf, Lists;
    ItemNamesAre(schema, MembersOf(schema, union), name);
    forall item
      ensures item in MembersOf(schema, union) <==> Lists(schema, union, item)
    {
      MembersAre(schema, union, item);
    }
  }

  // ---------- Selections ----------

  /** The mapping keys a tag may be written for. */
  predicate WrittenFor(part: Part, key: string) {
    match part
    case StrPart(s) => key == s
    case BoolPart(b) => key == (if b then "True" else "False") || key == (if b then "true" else "false")
    case IntPart(i) => key == IntText(i) || (i == 0 && key == "False") || (i == 1 && key == "True")
    case FloatPart(text, unit) => key == text || (unit.Some? && key == (if unit.value then "True" else "False"))
    case OtherPart => false
  }

  /** A tag of a discriminated union names the member its mapping refers to. */
  ghost predicate TagNames(schema: Schema, union: Id, part: Part, key: string, node: Id) {
    var discriminator := schema.ObjField(union, "discriminator");
    && discriminator.Some?
    && var mapping := schema.ObjField(discriminator.value, "mapping");
       && mapping.Some? && WrittenFor(part, key)
       && schema.TextField(mapping.value, key).Some?
       && Names(schema, schema.TextField(mapping.value, key).value, node)
  }

  ghost predicate TagSelects(schema: Schema, union: Id, part: Part, node: Id) {
    && (exists key :: TagNames(schema, union, part, key, node))
    && (forall key, other :: TagNames(schema, union, part, key, other) ==> other == node)
  }

  ghost predicate NoTag(schema: Schema, union: Id, part: Part) {
    forall key, node :: !TagNames(schema, union, part, key, node)
  }

  predicate Titled(schema: Schema, node: Id, part: Part) {
    part.StrPart? && schema.TextField(node, "title") == Some(part.s)
  }

  /** A real choice: two branches that are not null. */
  ghost predicate RealChoice(schema: Schema, variants: seq<Id>) {
    exists i, j :: 0 <= i < j < |variants| && !IsNull(schema, variants[i]) && !IsNull(schema, variants[j])
  }

  /** Of a real choice a title names the first branch that has it, unless it is a tag. */
  ghost predicate TitleSelects(schema: Schema, union: Id, part: Part, node: Id) {
    var variants := Variants(schema, union);
    && NoTag(schema, union, part) && RealChoice(schema, variants)
    && exists k :: 0 <= k < |variants| && variants[k] == node && Titled(schema, node, part)
                   && forall j :: 0 <= j < k ==> !Titled(schema, variants[j], part)
  }

  ghost predicate Selects(schema: Schema, union: Id, part: Part, node: Id) {
    TagSelects(schema, union, part, node) || TitleSelects(schema, union, part, node)
  }

  /** The part is neither a tag nor a title at this union. */
  ghost predicate Unnamed(schema: Schema, union: Id, part: Part) {
    var variants := Variants(schema, union);
    NoTag(schema, union, part) && forall k :: 0 <= k < |variants| ==> !Titled(schema, variants[k], part)
  }

  /** The first branch that is a union itself and where the part selects. */
  ghost predicate NestedAt(schema: Schema, variants: seq<Id>, part: Part, k: nat, node: Id) {
    && k < |variants| && IsUnion(schema, variants[k]) && Selects(schema, variants[k], part, node)
    && forall j :: 0 <= j < k && IsUnion(schema, variants[j]) ==> Unnamed(schema, variants[j], part)
  }

  /** Neither here nor in a branch that is a union itself. */
  ghost predicate Unselected(schema: Schema, union: Id, part: Part) {
    var variants := Variants(schema, union);
    Unnamed(schema, union, part) && forall k :: 0 <= k < |variants| && IsUnion(schema, variants[k]) ==> Unnamed(schema, variants[k], part)
  }

  /** The part is no tag at this union, and a title at most where there is no real choice. */
  ghost predicate Undecided(schema: Schema, union: Id, part: Part) {
    var variants := Variants(schema, union);
    && NoTag(schema, union, part)
    && (RealChoice(schema, variants) ==> forall k :: 0 <= k < |variants| ==> !Titled(schema, variants[k], part))
  }

  // ---------- Children ----------

  function OnlyObject(schema: Schema, child: Option<Id>): Option<Id> {
    if child.Some? && schema.IsObj(child.value) then child else None
  }

  /** The property of that name. */
  function PropertyNamed(schema: Schema, node: Id, name: string): Option<Id> {
    var properties := schema.ObjField(node, "properties");
    if properties.None? then None else schema.ObjField(properties.value, name)
  }

  /** The name of the property that a part means: the first part may be another spelling, which yields to a property of
      that very name unless the location is written in field names. */
  function Meant(query: Query, index: nat, node: Id, name: string): string {
    if index > 0 || name !in query.aliases then name
    else
      var field := query.aliases[name];
      if query.usesFieldNames && PropertyNamed(query.schema, node, field).Some? then field
      else if PropertyNamed(query.schema, node, name).Some? then name
      else field
  }

  /** Counting back past the front of a list. */
  ghost predicate CountsTooFar(schema: Schema, node: Id, part: Part) {
    var prefix := schema.ListField(node, "prefixItems");
    IntOf(part).Some? && prefix.Some? && IntOf(part).value < -|prefix.value|
  }

  /** The item at an index, counted from the back if negative. */
  function ItemAt(schema: Schema, node: Id, i: int): Option<Id> {
    var prefix := schema.ListField(node, "prefixItems");
    if prefix.None? || i >= |prefix.value| then schema.Field(node, "items")
    else if -|prefix.value| <= i then Some(prefix.value[if i < 0 then |prefix.value| + i else i])
    else None
  }

  /** The property or item a part names. */
  function MemberOf(query: Query, index: nat, node: Id): Option<Id>
    requires index < |query.location|
  {
    match query.location[index]
    case StrPart(s) => PropertyNamed(query.schema, node, Meant(query, index, node, s))
    case IntPart(i) => OnlyObject(query.schema, ItemAt(query.schema, node, i))
    case BoolPart(b) => OnlyObject(query.schema, ItemAt(query.schema, node, if b then 1 else 0))
    case _ => None
  }

  /** What a mapping that is open to any key holds. */
  function OpenOf(query: Query, index: nat, node: Id): Option<Id>
    requires index < |query.location|
  {
    if query.location[index].StrPart? then OnlyObject(query.schema, query.schema.Field(node, "additionalProperties")) else None
  }

  /** The first branch with such a member. */
  ghost predicate MemberAt(query: Query, index: nat, variants: seq<Id>, k: nat, node: Id)
    requires index < |query.location|
  {
    && k < |variants| && MemberOf(query, index, variants[k]) == Some(node)
    && forall j :: 0 <= j < k ==> MemberOf(query, index, variants[j]).None? && OpenOf(query, index, variants[j]) != Some(node)
  }

  ghost predicate NoMember(query: Query, index: nat, variants: seq<Id>)
    requires index < |query.location|
  {
    forall k :: 0 <= k < |variants| ==> MemberOf(query, index, variants[k]).None?
  }

  ghost predicate OpenAt(query: Query, index: nat, variants: seq<Id>, k: nat, node: Id)
    requires index < |query.location|
  {
    && NoMember(query, index, variants)
    && k < |variants| && OpenOf(query, index, variants[k]) == Some(node)
    && forall j :: 0 <= j < k ==> OpenOf(query, index, variants[j]).None?
  }

  /** The name stands in the text as a name of its own. */
  ghost predicate StandsIn(name: string, text: string, alnum: char -> bool) {
    exists before, after :: text == before + name + after && Borders(before, after, alnum)
  }

  predicate Borders(before: string, after: string, alnum: char -> bool) {
    var inside := (c: char) => alnum(c) || c == '_';
    && (before != "" ==> !inside(before[|before| - 1]))
    && (after != "" ==> !inside(after[0]))
  }

  /** A marker that shows the union behind it: it spells a union and one of the names in it. */
  ghost predicate ShowsUnion(query: Query, part: Part, union: Id) {
    && part.StrPart? && |part.s| <= 4096 && Contains(part.s, "union[")
    && exists k :: 0 <= k < 40 && k < |ReferenceNames(query.schema, union)|
                   && StandsIn(ReferenceNames(query.schema, union)[k], part.s, query.alnum)
  }

  predicate HidesSchema(part: Part) {
    part.StrPart? && ("function-wrap[" <= part.s || "function-plain[" <= part.s)
  }

  /** What a marker leaves possible at the union it was read at. */
  ghost predicate Leaves(query: Query, part: Part, union: Id, skip: Skip) {
    match skip
    case NoSkip => false
    case UnionMarker => ShowsUnion(query, part, union)
    case Blind => !ShowsUnion(query, part, union) && HidesSchema(part)
    case Opaque => !ShowsUnion(query, part, union) && !HidesSchema(part)
  }

  /** Shaped like the marker of a branch. */
  predicate MarkerShaped(part: Part) {
    !part.StrPart? || (|part.s| <= 4096 && ('[' in part.s || '-' in part.s || MarkerTypeName(part.s)))
  }

  // ---------- Steps ----------

  /** How one part of a location steps through the schema: it selects a branch of a union by tag or title, or one of a
      union within, or, behind the marker of a union, a branch of that union; it names a member, or a key of an open
      mapping; or it is the marker of a branch that is not named. */
  datatype Step = Tag | Title | Nested | Behind | Member | Open | Pass

  /** Where a location has come: at a node, with what a marker read there leaves possible. */
  datatype Place = Place(node: Id, skip: Skip)

  ghost predicate NestedUndecided(schema: Schema, variants: seq<Id>, part: Part) {
    forall k :: 0 <= k < |variants| && IsUnion(schema, variants[k]) ==> Undecided(schema, variants[k], part)
  }

  /** Nothing selects at a union for sure. */
  ghost predicate Free(schema: Schema, union: Id, part: Part, skip: Skip) {
    match skip
    case NoSkip => Undecided(schema, union, part) && NestedUndecided(schema, Variants(schema, union), part)
    case UnionMarker => NestedUndecided(schema, Variants(schema, union), part)
    case _ => true
  }

  /** The part steps from one place to another. */
  ghost predicate Steps(query: Query, index: nat, from: Place, step: Step, to: Place)
    requires index < |query.location|
  {
    var schema, part, at := query.schema, query.location[index], Resolve(query.schema, from.node);
    var variants := Variants(schema, at);
    && (forall k :: 0 <= k < |variants| ==> !CountsTooFar(schema, variants[k], part))
    && (!step.Pass? ==> to.skip.NoSkip?)
    && (!step.Member? && !step.Open? ==> IsUnion(schema, at))
    && match step
       case Tag => from.skip.NoSkip? && TagSelects(schema, at, part, to.node)
       case Title => from.skip.NoSkip? && TitleSelects(schema, at, part, to.node)
       case Nested =>
         && (from.skip.NoSkip? || from.skip.UnionMarker?)
         && Unnamed(schema, at, part) && exists k: nat :: NestedAt(schema, variants, part, k, to.node)
       case Behind =>
         && from.skip.UnionMarker? && Selects(schema, at, part, to.node)
         && NestedUndecided(schema, variants, part) && NoMember(query, index, variants)
       case Member =>
         && (IsUnion(schema, at) ==> Free(schema, at, part, from.skip))
         && exists k: nat :: MemberAt(query, index, variants, k, to.node)
       case Open =>
         && (IsUnion(schema, at) ==> from.skip.Opaque?)
         && exists k: nat :: OpenAt(query, index, variants, k, to.node)
       case Pass =>
         && (if from.skip.NoSkip? then Unselected(schema, at, part) else from.skip.Blind? && !to.skip.Opaque?)
         && NoMember(query, index, variants) && RealChoice(schema, variants)
         && MarkerShaped(part) && Leaves(query, part, at, to.skip)
         && schema.TextField(at, "$ref").None? && to.node == at
  }
}
