/** Capping a list of validation errors, fairly over the fields they belong to. */
module ErrorCap {
  import opened Values
  import opened Locations
  import opened Schemas

  const MAX_VALIDATION_ERRORS := 50

  datatype ErrorDetails = ErrorDetails(loc: Option<seq<Part>>, message: string)

  /** The field an error belongs to: the first part of its location, if it has one. */
  function Head(error: ErrorDetails): Option<Part> {
    if error.loc.Some? && error.loc.value != [] then Some(error.loc.value[0]) else None
  }

  /** Giant string parts are cut one character past the marker scan limit. */
  function ClampPart(part: Part): Part {
    if part.StrPart? && |part.s| > MAX_MARKER_SCAN_CHARS + 1 then StrPart(part.s[..MAX_MARKER_SCAN_CHARS + 1]) else part
  }

  function Clamp(error: ErrorDetails): ErrorDetails {
    if error.loc.None? then error
    else
      var loc := error.loc.value;
      error.(loc := Some(seq(|loc|, i requires 0 <= i < |loc| => ClampPart(loc[i]))))
  }

  function ClampAll(errors: seq<ErrorDetails>): (clamped: seq<ErrorDetails>)
    ensures |clamped| == |errors|
  {
    seq(|errors|, i requires 0 <= i < |errors| => Clamp(errors[i]))
  }

  /** A clamped part is still too long to be scanned, at most one character so, and is taken for the same marker. */
  lemma ClampingKeepsMarkers(query: Query, part: Part, node: Id, variants: seq<Id>)
    ensures var clamped := ClampPart(part);
      && (part.StrPart? <==> clamped.StrPart?)
      && (part.StrPart? ==> clamped.s <= part.s && |clamped.s| == if |part.s| > 4096 then 4097 else |part.s|)
      && (!part.StrPart? ==> clamped == part)
      && MarkerLike(query.schema, clamped, variants) == MarkerLike(query.schema, part, variants)
      && SkipFor(query, clamped, node) == SkipFor(query, part, node)
  {
    if part.StrPart? && |part.s| > MAX_MARKER_SCAN_CHARS + 1 {
      assert forall prefix: string :: |prefix| <= 20 ==> (StartsWith(ClampPart(part).s, prefix) <==> StartsWith(part.s, prefix));
    }
  }

  // ---------- Fields and rounds ----------

  /** The errors of one field, in order. */
  function Bucket(errors: seq<ErrorDetails>, head: Option<Part>): seq<ErrorDetails> {
    if errors == [] then []
    else
      var last := errors[|errors| - 1];
      Bucket(errors[..|errors| - 1], head) + (if Head(last) == head then [last] else [])
  }

  /** The fields in order of first appearance. */
  function Heads(errors: seq<ErrorDetails>): seq<Option<Part>> {
    if errors == [] then []
    else
      var before := Heads(errors[..|errors| - 1]);
      var head := Head(errors[|errors| - 1]);
      if head in before then before else before + [head]
  }

  /** The `depth`-th error of each listed field that has one. */
  function Row(errors: seq<ErrorDetails>, heads: seq<Option<Part>>, depth: nat): seq<ErrorDetails> {
    if heads == [] then []
    else
      var bucket := Bucket(errors, heads[|heads| - 1]);
      Row(errors, heads[..|heads| - 1], depth) + (if depth < |bucket| then [bucket[depth]] else [])
  }

  /** The first `depth` rounds over all fields. */
  function Rounds(errors: seq<ErrorDetails>, depth: nat): seq<ErrorDetails> {
    if depth == 0 then [] else Rounds(errors, depth - 1) + Row(errors, Heads(errors), depth - 1)
  }

  /** The first `n` errors, or all of them. */
  function FirstOf(errors: seq<ErrorDetails>, n: nat): seq<ErrorDetails> {
    if n < |errors| then errors[..n] else errors
  }

  lemma FirstOfNext(errors: seq<ErrorDetails>, n: nat)
    ensures FirstOf(errors, n + 1) == FirstOf(errors, n) + (if n < |errors| then [errors[n]] else [])
  {
  }

  lemma {:induction false} BucketSplits(a: seq<ErrorDetails>, b: seq<ErrorDetails>, head: Option<Part>)
    ensures Bucket(a + b, head) == Bucket(a, head) + Bucket(b, head)
  {
    if b == [] {
      assert a + b == a;
    } else {
      assert (a + b)[..|a + b| - 1] == a + b[..|b| - 1];
      BucketSplits(a, b[..|b| - 1], head);
    }
  }

  lemma {:induction false} HeadsAreDistinct(errors: seq<ErrorDetails>)
    ensures forall i, j :: 0 <= i < j < |Heads(errors)| ==> Heads(errors)[i] != Heads(errors)[j]
    ensures forall head :: head in Heads(errors) <==> Bucket(errors, head) != []
  {
    if errors != [] {
      HeadsAreDistinct(errors[..|errors| - 1]);
    }
  }

  lemma {:induction false} BucketHeads(errors: seq<ErrorDetails>, head: Option<Part>)
    ensures forall e :: e in Bucket(errors, head) ==> Head(e) == head
  {
    if errors != [] {
      BucketHeads(errors[..|errors| - 1], head);
    }
  }

  lemma BucketOne(error: ErrorDetails, head: Option<Part>)
    ensures Bucket([error], head) == if Head(error) == head then [error] else []
  {
    assert [error][..0] == [];
  }

  /** A row holds one error of each listed field that still has one. */
  lemma {:induction false} RowBucket(errors: seq<ErrorDetails>, heads: seq<Option<Part>>, depth: nat, head: Option<Part>)
    requires forall i, j :: 0 <= i < j < |heads| ==> heads[i] != heads[j]
    ensures var bucket := Bucket(errors, head);
      Bucket(Row(errors, heads, depth), head)
      == if head in heads && depth < |bucket| then [bucket[depth]] else []
  {
    if heads == [] {
      assert Bucket([], head) == [];
    } else {
      hide Bucket;
      var init, last := heads[..|heads| - 1], heads[|heads| - 1];
      RowBucket(errors, init, depth, head);
      assert heads == init + [last];
      assert last !in init;
      RowBucketNext(errors, init, last, depth, head);
      assert Row(errors, heads, depth) == Row(errors, init + [last], depth);
    }
  }

  /** One more field adds its error to its own bucket only. */
  lemma RowBucketNext(errors: seq<ErrorDetails>, init: seq<Option<Part>>, last: Option<Part>, depth: nat, head: Option<Part>)
    ensures var bucket := Bucket(errors, last);
      Bucket(Row(errors, init + [last], depth), head)
      == Bucket(Row(errors, init, depth), head) + (if last == head && depth < |bucket| then [bucket[depth]] else [])
  {
    hide Bucket;
    assert (init + [last])[..|init|] == init;
    var bucket := Bucket(errors, last);
    assert Row(errors, init + [last], depth)
        == Row(errors, init, depth) + (if depth < |bucket| then [bucket[depth]] else []);
    if depth < |bucket| {
      BucketSplits(Row(errors, init, depth), [bucket[depth]], head);
      BucketHeads(errors, last);
      BucketOne(bucket[depth], head);
    } else {
      assert Row(errors, init, depth) + [] == Row(errors, init, depth);
    }
  }

  lemma {:induction false} RoundsBucket(errors: seq<ErrorDetails>, depth: nat, head: Option<Part>)
    ensures Bucket(Rounds(errors, depth), head) == FirstOf(Bucket(errors, head), depth)
  {
    if depth == 0 {
      assert Bucket([], head) == [];
    } else {
      RoundsBucket(errors, depth - 1, head);
      RoundsNext(errors, depth - 1, head);
    }
  }

  lemma RoundsNext(errors: seq<ErrorDetails>, depth: nat, head: Option<Part>)
    requires Bucket(Rounds(errors, depth), head) == FirstOf(Bucket(errors, head), depth)
    ensures Bucket(Rounds(errors, depth + 1), head) == FirstOf(Bucket(errors, head), depth + 1)
  {
    var rounds, row := Rounds(errors, depth), Row(errors, Heads(errors), depth);
    assert Rounds(errors, depth + 1) == rounds + row;
    RowOfAll(errors, depth, head);
    BucketSplits(rounds, row, head);
    FirstOfNext(Bucket(errors, head), depth);
  }

  lemma RowOfAll(errors: seq<ErrorDetails>, depth: nat, head: Option<Part>)
    ensures var bucket := Bucket(errors, head);
      Bucket(Row(errors, Heads(errors), depth), head) == if depth < |bucket| then [bucket[depth]] else []
  {
    HeadsAreDistinct(errors);
    RowBucket(errors, Heads(errors), depth, head);
  }

  // ---------- The cap ----------

  /** What the cap promises for more errors than it lets through: so many, field by field a prefix, with the
      prefixes as even as the fields allow. */
  ghost predicate IsFairSelection(errors: seq<ErrorDetails>, capped: seq<ErrorDetails>) {
    && |capped| == MAX_VALIDATION_ERRORS
    && (forall head :: Bucket(capped, head) <= Bucket(errors, head))
    && (|Heads(errors)| <= MAX_VALIDATION_ERRORS ==> forall head :: head in Heads(errors) ==> Bucket(capped, head) != [])
    && (forall more, fewer :: |Bucket(capped, more)| > |Bucket(capped, fewer)| + 1 ==>
          Bucket(capped, fewer) == Bucket(errors, fewer))
  }

  /** The selection after some rounds and part of one more. */
  ghost function Selection(errors: seq<ErrorDetails>, depth: nat, count: nat): seq<ErrorDetails>
    requires count <= |Heads(errors)|
  {
    Rounds(errors, depth) + Row(errors, Heads(errors)[..count], depth)
  }

  lemma SelectionBucket(errors: seq<ErrorDetails>, depth: nat, count: nat, head: Option<Part>)
    requires count <= |Heads(errors)|
    ensures Bucket(Selection(errors, depth, count), head)
         == FirstOf(Bucket(errors, head), if head in Heads(errors)[..count] then depth + 1 else depth)
  {
    var heads := Heads(errors)[..count];
    HeadsAreDistinct(errors);
    RoundsBucket(errors, depth, head);
    RowBucket(errors, heads, depth, head);
    BucketSplits(Rounds(errors, depth), Row(errors, heads, depth), head);
    FirstOfNext(Bucket(errors, head), depth);
  }

  lemma {:induction false} RowLength(errors: seq<ErrorDetails>, heads: seq<Option<Part>>)
    requires forall head :: head in heads ==> Bucket(errors, head) != []
    ensures |Row(errors, heads, 0)| == |heads|
  {
    if heads != [] {
      assert heads[|heads| - 1] in heads;
      RowLength(errors, heads[..|heads| - 1]);
    }
  }

  lemma SelectionIsFair(errors: seq<ErrorDetails>, depth: nat, count: nat)
    requires count <= |Heads(errors)|
    requires |Selection(errors, depth, count)| == MAX_VALIDATION_ERRORS
    ensures IsFairSelection(errors, Selection(errors, depth, count))
  {
    var capped := Selection(errors, depth, count);
    forall head
      ensures Bucket(capped, head) <= Bucket(errors, head)
      ensures depth <= |Bucket(errors, head)| ==> depth <= |Bucket(capped, head)| <= depth + 1
      ensures depth > |Bucket(errors, head)| ==> Bucket(capped, head) == Bucket(errors, head)
    {
      SelectionBucket(errors, depth, count, head);
    }
    HeadsAreDistinct(errors);
    if depth == 0 && |Heads(errors)| <= MAX_VALIDATION_ERRORS {
      RowLength(errors, Heads(errors)[..count]);
      assert Heads(errors)[..count] == Heads(errors);
      forall head | head in Heads(errors)
        ensures Bucket(capped, head) != []
      {
        SelectionBucket(errors, depth, count, head);
      }
    }
  }

  /** Once a round adds nothing, the rounds hold every error. */
  lemma {:induction false} RoundsHoldAll(errors: seq<ErrorDetails>, depth: nat)
    requires Row(errors, Heads(errors), depth) == []
    ensures |Rounds(errors, depth)| >= |errors|
  {
    HeadsAreDistinct(errors);
    forall head
      ensures |Bucket(errors, head)| <= |Bucket(Rounds(errors, depth), head)|
    {
      RoundsBucket(errors, depth, head);
      RowBucket(errors, Heads(errors), depth, head);
      assert Bucket([], head) == [];
    }
    BucketsBoundLength(errors, Rounds(errors, depth));
  }

  lemma {:induction false} BucketsBoundLength(a: seq<ErrorDetails>, b: seq<ErrorDetails>)
    requires forall head :: |Bucket(a, head)| <= |Bucket(b, head)|
    ensures |a| <= |b|
  {
    if a != [] {
      var last := a[|a| - 1];
      assert |Bucket(b, Head(last))| > 0;
      var k := BucketMember(b, Head(last));
      var fewer := b[..k] + b[k + 1..];
      assert b == b[..k] + [b[k]] + b[k + 1..];
      forall head
        ensures |Bucket(a[..|a| - 1], head)| <= |Bucket(fewer, head)|
      {
        BucketSplits(b[..k], b[k + 1..], head);
        BucketSplits(b[..k] + [b[k]], b[k + 1..], head);
        BucketSplits(b[..k], [b[k]], head);
        BucketOne(b[k], head);
      }
      BucketsBoundLength(a[..|a| - 1], fewer);
    }
  }

  lemma {:induction false} BucketMember(errors: seq<ErrorDetails>, head: Option<Part>) returns (k: nat)
    requires Bucket(errors, head) != []
    ensures k < |errors| && Head(errors[k]) == head
  {
    var last := |errors| - 1;
    if Head(errors[last]) == head {
      k := last;
    } else {
      k := BucketMember(errors[..last], head);
    }
  }

  /** Grouping by field, in order of first appearance. */
  method GroupByHead(errors: seq<ErrorDetails>)
    returns (heads: seq<Option<Part>>, groups: map<Option<Part>, seq<ErrorDetails>>)
    ensures heads == Heads(errors)
    ensures forall head :: head in heads ==> head in groups && groups[head] == Bucket(errors, head)
  {
    heads, groups := [], map[];
    for i := 0 to |errors|
      invariant heads == Heads(errors[..i])
      invariant forall head :: head in heads <==> head in groups
      invariant forall head :: head in groups ==> groups[head] == Bucket(errors[..i], head)
    {
      assert errors[..i + 1][..i] == errors[..i];
      var head := Head(errors[i]);
      HeadsAreDistinct(errors[..i]);
      if head in groups {
        groups := groups[head := groups[head] + [errors[i]]];
      } else {
        heads := heads + [head];
        groups := groups[head := [errors[i]]];
      }
    }
    assert errors[..|errors|] == errors;
  }

  lemma RowNext(errors: seq<ErrorDetails>, heads: seq<Option<Part>>, i: nat, depth: nat)
    requires i < |heads|
    ensures var bucket := Bucket(errors, heads[i]);
      Row(errors, heads[..i + 1], depth)
      == Row(errors, heads[..i], depth) + (if depth < |bucket| then [bucket[depth]] else [])
  {
    assert heads[..i + 1][..i] == heads[..i];
  }

  /** One round: takes the `depth`-th error of every field, stopping at the cap. */
  method TakeRound(ghost errors: seq<ErrorDetails>, heads: seq<Option<Part>>,
      groups: map<Option<Part>, seq<ErrorDetails>>, before: seq<ErrorDetails>, depth: nat)
    returns (capped: seq<ErrorDetails>, progressed: bool, ghost count: nat)
    requires |before| < MAX_VALIDATION_ERRORS
    requires heads == Heads(errors)
    requires forall head :: head in heads ==> head in groups && groups[head] == Bucket(errors, head)
    requires before == Rounds(errors, depth)
    ensures count <= |heads| && capped == Selection(errors, depth, count) && |capped| <= MAX_VALIDATION_ERRORS
    ensures |capped| < MAX_VALIDATION_ERRORS ==> count == |heads|
    ensures |capped| >= |before| && (progressed <==> |capped| > |before|)
  {
    hide Bucket, Heads, Rounds, Row;
    RowNone(errors, heads, depth);
    capped, progressed, count := before, false, 0;
    for i := 0 to |heads|
      invariant count == i && capped == before + Row(errors, heads[..i], depth)
      invariant |capped| < MAX_VALIDATION_ERRORS
      invariant |capped| >= |before| && (progressed <==> |capped| > |before|)
    {
      RowNext(errors, heads, i, depth);
      assert heads[i] in heads;
      var bucket := groups[heads[i]];
      count := i + 1;
      if depth >= |bucket| {
        continue;
      }
      capped := capped + [bucket[depth]];
      progressed := true;
      if |capped| == MAX_VALIDATION_ERRORS {
        return;
      }
    }
  }

  lemma RowNone(errors: seq<ErrorDetails>, heads: seq<Option<Part>>, depth: nat)
    ensures Row(errors, heads[..0], depth) == []
  {
  }

  /** A round that went through all fields. */
  lemma RoundComplete(errors: seq<ErrorDetails>, depth: nat, count: nat)
    requires count == |Heads(errors)|
    ensures Selection(errors, depth, count) == Rounds(errors, depth + 1)
    ensures |Rounds(errors, depth + 1)| == |Rounds(errors, depth)| ==> |Rounds(errors, depth)| >= |errors|
  {
    assert Heads(errors)[..count] == Heads(errors);
    if |Rounds(errors, depth + 1)| == |Rounds(errors, depth)| {
      RoundsHoldAll(errors, depth);
    }
  }

  /** `_capped_validation_errors`. */
  method CappedValidationErrors(errors: seq<ErrorDetails>) returns (capped: seq<ErrorDetails>)
    ensures |errors| <= MAX_VALIDATION_ERRORS ==> capped == ClampAll(errors)
    ensures |errors| > MAX_VALIDATION_ERRORS ==> IsFairSelection(ClampAll(errors), capped)
    ensures |errors| > MAX_VALIDATION_ERRORS ==>
              exists depth: nat, count: nat :: count <= |Heads(ClampAll(errors))| && capped == Selection(ClampAll(errors), depth, count)
  {
    hide Bucket, Heads, Rounds, Row, Selection, ClampAll, IsFairSelection;
    var clamped := ClampAll(errors);
    if |clamped| <= MAX_VALIDATION_ERRORS {
      return clamped;
    }
    var heads, groups := GroupByHead(clamped);
    capped := [];
    var depth := 0;
    NoRounds(clamped);
    ghost var round: nat, count: nat := 0, 0;
    while |capped| < MAX_VALIDATION_ERRORS
      invariant |capped| <= MAX_VALIDATION_ERRORS
      invariant |capped| < MAX_VALIDATION_ERRORS ==> capped == Rounds(clamped, depth)
      invariant |capped| == MAX_VALIDATION_ERRORS ==> count <= |heads| && capped == Selection(clamped, round, count)
      decreases MAX_VALIDATION_ERRORS - |capped|
    {
      var progressed;
      round := depth;
      capped, progressed, count := TakeRound(clamped, heads, groups, capped, depth);
      if count == |heads| {
        RoundComplete(clamped, depth, count);
      }
      assert progressed;
      if !progressed {
        break;
      }
      depth := depth + 1;
    }
    SelectionIsFair(clamped, round, count);
  }

  lemma NoRounds(errors: seq<ErrorDetails>)
    ensures Rounds(errors, 0) == []
  {
  }
}
