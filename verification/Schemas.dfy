/** JSON schemas as Python object graphs, and local `$ref` resolution. */
module Schemas {
  import opened Values

  /** The identity of a Python object in the schema graph. */
  type Id = nat

  /** A schema object. `order` lists a mapping's keys as iteration sees them. */
  datatype Node =
    | Obj(fields: map<string, Id>, order: seq<string>)
    | Arr(items: seq<Id>)
    | Text(text: string)
    | Atom

  datatype Schema = Schema(nodes: map<Id, Node>, root: Id)
  {
    function At(id: Id): Node {
      if id in nodes then nodes[id] else Atom
    }

    predicate IsObj(id: Id) {
      At(id).Obj?
    }

    function Field(id: Id, key: string): Option<Id> {
      var node := At(id);
      if node.Obj? && key in node.fields then Some(node.fields[key]) else None
    }

    /** `node.get(key)` when it is a string. */
    function TextField(id: Id, key: string): Option<string> {
      var field := Field(id, key);
      if field.Some? && At(field.value).Text? then Some(At(field.value).text) else None
    }

    /** `node.get(key)` when it is a list. */
    function ListField(id: Id, key: string): Option<seq<Id>> {
      var field := Field(id, key);
      if field.Some? && At(field.value).Arr? then Some(At(field.value).items) else None
    }

    /** `node.get(key)` when it is a mapping. */
    function ObjField(id: Id, key: string): Option<Id> {
      var field := Field(id, key);
      if field.Some? && IsObj(field.value) then field else None
    }

    /** Iteration over a mapping comes to every key once. */
    ghost predicate Ordered() {
      forall id :: id in nodes && nodes[id].Obj? ==>
        && (forall key :: key in nodes[id].fields <==> key in nodes[id].order)
        && forall i, j :: 0 <= i < j < |nodes[id].order| ==> nodes[id].order[i] != nodes[id].order[j]
    }

    /** The strings a `$ref` can hold. */
    ghost function Texts(): set<string> {
      set id | id in nodes && nodes[id].Text? :: nodes[id].text
    }
  }

  // ---------- JSON pointers ----------

  /** `text.split("/")`. */
  function Split(text: string): (parts: seq<string>)
    ensures |parts| > 0
  {
    if text == [] then [[]]
    else
      var rest := Split(text[1..]);
      if text[0] == '/' then [[]] + rest else [[text[0]] + rest[0]] + rest[1..]
  }

  /** `text.replace("~" + digit, char)`. */
  function ReplaceTilde(text: string, digit: char, replacement: char): string {
    if |text| >= 2 && text[0] == '~' && text[1] == digit then [replacement] + ReplaceTilde(text[2..], digit, replacement)
    else if text == [] then []
    else [text[0]] + ReplaceTilde(text[1..], digit, replacement)
  }

  /** A reference token decoded in two steps, slashes first. */
  function Decode(token: string): string {
    ReplaceTilde(ReplaceTilde(token, '1', '/'), '0', '~')
  }

  /** A reference token escaped as section 3 of RFC 6901 says. */
  function Escape(token: string): string {
    if token == [] then []
    else (if token[0] == '~' then "~0" else if token[0] == '/' then "~1" else [token[0]]) + Escape(token[1..])
  }

  function Join(parts: seq<string>): string
    requires parts != []
  {
    if |parts| == 1 then parts[0] else parts[0] + "/" + Join(parts[1..])
  }

  /** Only tildes are escaped: what the first decoding step leaves of an escaped token. */
  function EscapeTildes(token: string): string {
    if token == [] then []
    else (if token[0] == '~' then "~0" else [token[0]]) + EscapeTildes(token[1..])
  }

  lemma {:induction false} FirstStep(token: string)
    ensures ReplaceTilde(Escape(token), '1', '/') == EscapeTildes(token)
  {
    if token != [] {
      var head := if token[0] == '~' then "~0" else if token[0] == '/' then "~1" else [token[0]];
      var rest := Escape(token[1..]);
      FirstStep(token[1..]);
      assert (head + rest)[|head|..] == rest;
      if token[0] == '~' {
        var tail := (head + rest)[1..];
        assert tail == "0" + rest && tail[1..] == rest;
        assert ReplaceTilde(tail, '1', '/') == ['0'] + ReplaceTilde(rest, '1', '/');
      }
    }
  }

  lemma {:induction false} SecondStep(token: string)
    ensures ReplaceTilde(EscapeTildes(token), '0', '~') == token
  {
    if token != [] {
      var head := if token[0] == '~' then "~0" else [token[0]];
      var rest := EscapeTildes(token[1..]);
      SecondStep(token[1..]);
      assert (head + rest)[|head|..] == rest;
      assert EscapeTildes(token) == head + rest;
    }
  }

  /** Decoding undoes escaping, for every token. */
  lemma DecodeUndoesEscape(token: string)
    ensures Decode(Escape(token)) == token
  {
    FirstStep(token);
    SecondStep(token);
  }

  /** In the other order it does not, which is why section 4 of RFC 6901 fixes the order. */
  lemma OrderMatters()
    ensures ReplaceTilde(ReplaceTilde(Escape("~1"), '0', '~'), '1', '/') == "/"
  {
    assert Escape("~1") == "~01" by {
      assert "~1"[1..] == "1";
      assert Escape("1") == "1" by {
        assert "1"[1..] == [];
      }
    }
    assert ReplaceTilde("~01", '0', '~') == "~1" by {
      assert "~01"[2..] == "1";
      assert ReplaceTilde("1", '0', '~') == "1" by {
        assert "1"[1..] == [];
      }
    }
    assert "~1"[2..] == [];
  }

  lemma {:induction false} EscapeHasNoSlash(token: string)
    ensures '/' !in Escape(token)
  {
    if token != [] {
      EscapeHasNoSlash(token[1..]);
    }
  }

  lemma {:induction false} SplitFirst(part: string, rest: string)
    requires '/' !in part
    ensures Split(part) == [part]
    ensures Split(part + "/" + rest) == [part] + Split(rest)
  {
    var whole := part + "/" + rest;
    if part == [] {
      assert whole[0] == '/' && whole[1..] == rest;
      assert [[]] + Split(rest) == [part] + Split(rest);
    } else {
      SplitFirst(part[1..], rest);
      assert whole[0] == part[0] && whole[1..] == part[1..] + "/" + rest;
      assert Split(part[1..])[1..] == [];
      assert Split(whole[1..])[1..] == Split(rest);
      assert [part[0]] + part[1..] == part;
    }
  }

  function EscapeAll(tokens: seq<string>): (escaped: seq<string>)
    ensures |escaped| == |tokens|
  {
    seq(|tokens|, i requires 0 <= i < |tokens| => Escape(tokens[i]))
  }

  function DecodeAll(tokens: seq<string>): (decoded: seq<string>)
    ensures |decoded| == |tokens|
  {
    seq(|tokens|, i requires 0 <= i < |tokens| => Decode(tokens[i]))
  }

  /** A pointer built from any tokens is taken apart into those tokens. */
  lemma {:induction false} PointerRoundTrip(tokens: seq<string>)
    requires tokens != []
    ensures DecodeAll(Split(Join(EscapeAll(tokens)))) == tokens
  {
    var escaped := EscapeAll(tokens);
    SplitJoin(escaped, tokens);
    forall i | 0 <= i < |tokens|
      ensures Decode(escaped[i]) == tokens[i]
    {
      DecodeUndoesEscape(tokens[i]);
    }
  }

  lemma {:induction false} SplitJoin(escaped: seq<string>, tokens: seq<string>)
    requires |escaped| == |tokens| > 0
    requires forall i :: 0 <= i < |tokens| ==> escaped[i] == Escape(tokens[i])
    ensures Split(Join(escaped)) == escaped
  {
    hide Split, Escape;
    EscapeHasNoSlash(tokens[0]);
    if |tokens| == 1 {
      SplitFirst(escaped[0], []);
    } else {
      SplitFirst(escaped[0], Join(escaped[1..]));
      SplitJoin(escaped[1..], tokens[1..]);
      assert [escaped[0]] + escaped[1..] == escaped;
    }
  }

  // ---------- Resolution ----------

  /** The object a path of keys leads to, through mappings only. */
  function Follow(schema: Schema, from: Id, keys: seq<string>): Option<Id>
    decreases |keys|
  {
    if keys == [] then Some(from)
    else
      var next := schema.Field(from, keys[0]);
      if next.None? then None else Follow(schema, next.value, keys[1..])
  }

  predicate IsLocal(ref: string) {
    |ref| >= 2 && ref[0] == '#' && ref[1] == '/'
  }

  /** The mapping a local reference names, if any. */
  function Target(schema: Schema, ref: string): Option<Id> {
    if !IsLocal(ref) then None
    else
      var target := Follow(schema, schema.root, DecodeAll(Split(ref[2..])));
      if target.Some? && schema.IsObj(target.value) then target else None
  }

  lemma TextIsText(schema: Schema, id: Id, key: string)
    requires schema.TextField(id, key).Some?
    ensures schema.TextField(id, key).value in schema.Texts()
  {
  }

  /** Follows references until one is missing, foreign, dangling or already followed. */
  function ResolveFrom(schema: Schema, current: Id, visited: set<string>): Id
    decreases |schema.Texts() - visited|
  {
    var ref := schema.TextField(current, "$ref");
    if ref.None? || ref.value in visited then current
    else
      var target := Target(schema, ref.value);
      if target.None? then current
      else
        TextIsText(schema, current, "$ref");
        assert schema.Texts() - (visited + {ref.value}) < schema.Texts() - visited;
        SmallerSet(schema.Texts() - (visited + {ref.value}), schema.Texts() - visited);
        ResolveFrom(schema, target.value, visited + {ref.value})
  }

  lemma SmallerSet(a: set<string>, b: set<string>)
    requires a < b
    ensures |a| < |b|
  {
    var extra := b - a;
    assert b == a + extra && a !! extra && extra != {};
  }

  function Resolve(schema: Schema, id: Id): Id {
    ResolveFrom(schema, id, {})
  }

  /** The same for a reference that is not yet in the graph: nothing when it stays unresolved. */
  function ResolveText(schema: Schema, ref: string): Option<Id> {
    var target := Target(schema, ref);
    if target.None? then None else Some(ResolveFrom(schema, target.value, {ref}))
  }

  /** `_resolve_local_schema_ref` as written: a loop over the references seen so far. */
  method ResolveLocalRef(schema: Schema, start: Id) returns (current: Id)
    ensures current == Resolve(schema, start)
  {
    hide Follow, Split, Decode, DecodeAll;
    current := start;
    var visited: set<string> := {};
    while true
      invariant ResolveFrom(schema, current, visited) == Resolve(schema, start)
      decreases |schema.Texts() - visited|
    {
      var ref := schema.TextField(current, "$ref");
      if ref.None? || !IsLocal(ref.value) || ref.value in visited {
        return;
      }
      TextIsText(schema, current, "$ref");
      SmallerSet(schema.Texts() - (visited + {ref.value}), schema.Texts() - visited);
      visited := visited + {ref.value};
      var target := FollowParts(schema, Split(ref.value[2..]));
      if target.None? || !schema.IsObj(target.value) {
        return;
      }
      current := target.value;
    }
  }

  /** Field by field from the root, decoding on the way. */
  method FollowParts(schema: Schema, parts: seq<string>) returns (target: Option<Id>)
    ensures target == Follow(schema, schema.root, DecodeAll(parts))
  {
    hide Decode;
    var node := schema.root;
    for k := 0 to |parts|
      invariant Follow(schema, schema.root, DecodeAll(parts)) == Follow(schema, node, DecodeAll(parts[k..]))
    {
      assert DecodeAll(parts[k..])[1..] == DecodeAll(parts[k + 1..]);
      var next := schema.Field(node, Decode(parts[k]));
      if next.None? {
        return None;
      }
      node := next.value;
    }
    return Some(node);
  }

  /** What resolution returns can be resolved no further, except around a cycle of references. */
  lemma {:induction false} ResolutionEnds(schema: Schema, current: Id, visited: set<string>)
    ensures var resolved := ResolveFrom(schema, current, visited);
      var ref := schema.TextField(resolved, "$ref");
      ref.None? || Target(schema, ref.value).None? || ref.value in visited + Trail(schema, current, visited)
    decreases |schema.Texts() - visited|
  {
    var ref := schema.TextField(current, "$ref");
    if ref.Some? && ref.value !in visited && Target(schema, ref.value).Some? {
      TextIsText(schema, current, "$ref");
      SmallerSet(schema.Texts() - (visited + {ref.value}), schema.Texts() - visited);
      ResolutionEnds(schema, Target(schema, ref.value).value, visited + {ref.value});
    }
  }

  /** The references resolution follows. */
  ghost function Trail(schema: Schema, current: Id, visited: set<string>): set<string>
    decreases |schema.Texts() - visited|
  {
    var ref := schema.TextField(current, "$ref");
    if ref.None? || ref.value in visited || Target(schema, ref.value).None? then {}
    else
      TextIsText(schema, current, "$ref");
      SmallerSet(schema.Texts() - (visited + {ref.value}), schema.Texts() - visited);
      {ref.value} + Trail(schema, Target(schema, ref.value).value, visited + {ref.value})
  }

  /** A reference escaped from the path of any mapping in the schema leads to that mapping. */
  lemma ReferenceFindsPath(schema: Schema, keys: seq<string>, id: Id)
    requires keys != []
    requires Follow(schema, schema.root, keys) == Some(id) && schema.IsObj(id)
    ensures Target(schema, "#/" + Join(EscapeAll(keys))) == Some(id)
  {
    var ref := "#/" + Join(EscapeAll(keys));
    assert ref[2..] == Join(EscapeAll(keys));
    PointerRoundTrip(keys);
  }
}
