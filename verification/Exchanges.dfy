/** The exchange walk: one pass over a transcript that cuts it into exchanges. */
module Exchanges {
  import opened Values
  import opened Transcript

  datatype Occurrence = Occurrence(
    messageIndex: nat,
    contentIndex: nat,
    rawId: Option<string>,
    kind: Kind,
    errorKind: Option<ErrorKind>)

  /** The response run is `[start, split)` and the output run `[split, end)`. */
  datatype Exchange = Exchange(start: nat, split: nat, end: nat, embedded: seq<Occurrence>)

  /** A message of a response run. */
  predicate Sibling(message: MessageView, vocabulary: Vocabulary) {
    message.role.Assistant? && !message.marked && !ResultOnly(message, vocabulary)
  }

  /** A message of an output run. */
  predicate Output(message: MessageView, vocabulary: Vocabulary) {
    !message.marked && (message.role.Tool? || ResultOnly(message, vocabulary))
  }

  predicate AnyCall(messages: seq<MessageView>, from: nat, until: nat, vocabulary: Vocabulary)
    requires from <= until <= |messages|
  {
    exists i :: from <= i < until && CarriesCall(messages[i], vocabulary)
  }

  /** The declarative grammar: a maximal run of siblings with a call, and the maximal output run after it. */
  ghost predicate IsExchange(messages: seq<MessageView>, vocabulary: Vocabulary, a: int, b: int, c: int) {
    && 0 <= a < b <= c <= |messages|
    && (forall i :: a <= i < b ==> Sibling(messages[i], vocabulary))
    && (a > 0 ==> !Sibling(messages[a - 1], vocabulary))
    && (b < |messages| ==> !Sibling(messages[b], vocabulary))
    && AnyCall(messages, a, b, vocabulary)
    && (forall i :: b <= i < c ==> Output(messages[i], vocabulary))
    && (c < |messages| ==> !Output(messages[c], vocabulary))
  }

  /** The policy-free view of an id: strings and absence verbatim, anything else through `str`. */
  function StructuralId(id: Value, pystr: Value -> string): Option<string> {
    if id.Null? then None
    else if id.Str? then Some(id.s)
    else if id.Truthy() then Some(pystr(id))
    else Some("")
  }

  /** The result occurrences of one message, from its `from`-th content on. */
  function EmbeddedIn(message: MessageView, index: nat, from: nat, vocabulary: Vocabulary, pystr: Value -> string)
    : seq<Occurrence>
    requires from <= |message.contents|
    decreases |message.contents| - from
  {
    if from == |message.contents| then []
    else
      var content := message.contents[from];
      (if KindIn(content, vocabulary.results)
       then [Occurrence(index, from, StructuralId(content.id, pystr), content.kind.value, content.errorKind)]
       else [])
      + EmbeddedIn(message, index, from + 1, vocabulary, pystr)
  }

  function Embedded(messages: seq<MessageView>, from: nat, until: nat, vocabulary: Vocabulary, pystr: Value -> string)
    : seq<Occurrence>
    requires from <= until <= |messages|
    decreases until - from
  {
    if from == until then []
    else EmbeddedIn(messages[from], from, 0, vocabulary, pystr) + Embedded(messages, from + 1, until, vocabulary, pystr)
  }

  // ---------- The walk as a function ----------

  function SiblingEnd(messages: seq<MessageView>, from: nat, vocabulary: Vocabulary): (end: nat)
    requires from <= |messages|
    ensures from <= end <= |messages|
    ensures forall i :: from <= i < end ==> Sibling(messages[i], vocabulary)
    ensures end < |messages| ==> !Sibling(messages[end], vocabulary)
    decreases |messages| - from
  {
    if from < |messages| && Sibling(messages[from], vocabulary) then SiblingEnd(messages, from + 1, vocabulary)
    else from
  }

  function OutputEnd(messages: seq<MessageView>, from: nat, vocabulary: Vocabulary): (end: nat)
    requires from <= |messages|
    ensures from <= end <= |messages|
    ensures forall i :: from <= i < end ==> Output(messages[i], vocabulary)
    ensures end < |messages| ==> !Output(messages[end], vocabulary)
    decreases |messages| - from
  {
    if from < |messages| && Output(messages[from], vocabulary) then OutputEnd(messages, from + 1, vocabulary)
    else from
  }

  /** The exchanges found when the walk stands at `from`. */
  function ExchangesFrom(messages: seq<MessageView>, from: nat, vocabulary: Vocabulary, pystr: Value -> string)
    : seq<Exchange>
    requires from <= |messages|
    decreases |messages| - from
  {
    if from == |messages| then []
    else if !Sibling(messages[from], vocabulary) then ExchangesFrom(messages, from + 1, vocabulary, pystr)
    else
      var split := SiblingEnd(messages, from, vocabulary);
      assert split > from;
      if !AnyCall(messages, from, split, vocabulary) then ExchangesFrom(messages, split, vocabulary, pystr)
      else
        var end := OutputEnd(messages, split, vocabulary);
        [Exchange(from, split, end, Embedded(messages, from, split, vocabulary, pystr))]
        + ExchangesFrom(messages, end, vocabulary, pystr)
  }

  function ExchangesOf(messages: seq<MessageView>, vocabulary: Vocabulary, pystr: Value -> string): seq<Exchange> {
    ExchangesFrom(messages, 0, vocabulary, pystr)
  }

  // ---------- The walk as written ----------

  /** The result-only predicate as the loop computes it, stopping at the first call. */
  method IsResultOnly(message: MessageView, vocabulary: Vocabulary) returns (only: bool)
    ensures only == ResultOnly(message, vocabulary)
  {
    if !message.role.Assistant? {
      return false;
    }
    var sawResult := false;
    for k := 0 to |message.contents|
      invariant forall j :: 0 <= j < k ==> !KindIn(message.contents[j], vocabulary.calls)
      invariant sawResult <==> exists j :: 0 <= j < k && KindIn(message.contents[j], vocabulary.results)
    {
      if KindIn(message.contents[k], vocabulary.calls) {
        return false;
      }
      if KindIn(message.contents[k], vocabulary.results) {
        sawResult := true;
      }
    }
    return sawResult;
  }

  lemma {:induction false} EmbeddedSnoc(
    messages: seq<MessageView>, from: nat, until: nat, vocabulary: Vocabulary, pystr: Value -> string)
    requires from <= until < |messages|
    ensures Embedded(messages, from, until + 1, vocabulary, pystr)
         == Embedded(messages, from, until, vocabulary, pystr) + EmbeddedIn(messages[until], until, 0, vocabulary, pystr)
    decreases until - from
  {
    if from < until {
      EmbeddedSnoc(messages, from + 1, until, vocabulary, pystr);
    } else {
      assert Embedded(messages, until + 1, until + 1, vocabulary, pystr) == [];
    }
  }

  method EmbeddedResults(messages: seq<MessageView>, from: nat, until: nat, vocabulary: Vocabulary,
      pystr: Value -> string)
    returns (embedded: seq<Occurrence>)
    requires from <= until <= |messages|
    ensures embedded == Embedded(messages, from, until, vocabulary, pystr)
  {
    embedded := [];
    for i := from to until
      invariant embedded == Embedded(messages, from, i, vocabulary, pystr)
    {
      var contents := messages[i].contents;
      ghost var before := embedded;
      for k := 0 to |contents|
        invariant embedded + EmbeddedIn(messages[i], i, k, vocabulary, pystr)
               == before + EmbeddedIn(messages[i], i, 0, vocabulary, pystr)
      {
        ghost var previous := embedded;
        if KindIn(contents[k], vocabulary.results) {
          embedded := embedded + [Occurrence(i, k, StructuralId(contents[k].id, pystr), contents[k].kind.value,
                                             contents[k].errorKind)];
        }
        assert previous + EmbeddedIn(messages[i], i, k, vocabulary, pystr)
            == embedded + EmbeddedIn(messages[i], i, k + 1, vocabulary, pystr);
      }
      EmbeddedSnoc(messages, from, i, vocabulary, pystr);
    }
  }

  lemma {:induction false} SiblingEndFrom(messages: seq<MessageView>, from: nat, index: nat, vocabulary: Vocabulary)
    requires from <= index <= |messages|
    requires forall i :: from <= i < index ==> Sibling(messages[i], vocabulary)
    requires index < |messages| ==> !Sibling(messages[index], vocabulary)
    ensures SiblingEnd(messages, from, vocabulary) == index
    decreases index - from
  {
    if from < index {
      SiblingEndFrom(messages, from + 1, index, vocabulary);
    }
  }

  lemma {:induction false} OutputEndFrom(messages: seq<MessageView>, from: nat, index: nat, vocabulary: Vocabulary)
    requires from <= index <= |messages|
    requires forall i :: from <= i < index ==> Output(messages[i], vocabulary)
    requires index < |messages| ==> !Output(messages[index], vocabulary)
    ensures OutputEnd(messages, from, vocabulary) == index
    decreases index - from
  {
    if from < index {
      OutputEndFrom(messages, from + 1, index, vocabulary);
    }
  }

  /** `iter_exchanges`, collecting what it yields. */
  method IterExchanges(messages: seq<MessageView>, vocabulary: Vocabulary, pystr: Value -> string)
    returns (exchanges: seq<Exchange>)
    ensures exchanges == ExchangesOf(messages, vocabulary, pystr)
    ensures forall a, b, c :: IsExchange(messages, vocabulary, a, b, c) <==>
              exists k :: 0 <= k < |exchanges|
                && exchanges[k].start == a && exchanges[k].split == b && exchanges[k].end == c
  {
    hide ExchangesFrom, SiblingEnd, OutputEnd, AnyCall, Embedded;
    exchanges := [];
    var total := |messages|;
    var index := 0;
    assert [] + ExchangesFrom(messages, 0, vocabulary, pystr) == ExchangesOf(messages, vocabulary, pystr);
    while index < total
      invariant 0 <= index <= total
      invariant exchanges + ExchangesFrom(messages, index, vocabulary, pystr)
             == ExchangesOf(messages, vocabulary, pystr)
      decreases total - index
    {
      ghost var before := exchanges + ExchangesFrom(messages, index, vocabulary, pystr);
      var resultOnly := IsResultOnly(messages[index], vocabulary);
      if messages[index].marked || messages[index].role != Assistant || resultOnly {
        OtherUnfolds(messages, index, vocabulary, pystr);
        index := index + 1;
        continue;
      }

      var runStart := index;
      var runs := true;
      while index < total && runs
        invariant runStart <= index <= total
        invariant forall i :: runStart <= i < index ==> Sibling(messages[i], vocabulary)
        invariant !runs ==> index < total && !Sibling(messages[index], vocabulary)
        decreases total - index, runs
      {
        resultOnly := IsResultOnly(messages[index], vocabulary);
        if messages[index].role == Assistant && !messages[index].marked && !resultOnly {
          index := index + 1;
        } else {
          runs := false;
        }
      }
      SiblingEndFrom(messages, runStart, index, vocabulary);
      assert index > runStart;
      RunUnfolds(messages, runStart, vocabulary, pystr);

      if !AnyCall(messages, runStart, index, vocabulary) {
        continue;
      }

      var outputStart := index;
      while index < total && !messages[index].marked
        invariant outputStart <= index <= total
        invariant forall i :: outputStart <= i < index ==> Output(messages[i], vocabulary)
      {
        resultOnly := IsResultOnly(messages[index], vocabulary);
        if messages[index].role == Tool || resultOnly {
          index := index + 1;
          continue;
        }
        break;
      }
      OutputEndFrom(messages, outputStart, index, vocabulary);

      var embedded := EmbeddedResults(messages, runStart, outputStart, vocabulary, pystr);
      ghost var previous := exchanges;
      exchanges := exchanges + [Exchange(runStart, outputStart, index, embedded)];
      assert before == exchanges + ExchangesFrom(messages, index, vocabulary, pystr);
    }
    NothingLeft(messages, vocabulary, pystr);
    WalkMeetsGrammar(messages, vocabulary, pystr);
  }

  lemma NothingLeft(messages: seq<MessageView>, vocabulary: Vocabulary, pystr: Value -> string)
    ensures ExchangesFrom(messages, |messages|, vocabulary, pystr) == []
  {
  }

  /** The walk at any other message. */
  lemma OtherUnfolds(messages: seq<MessageView>, from: nat, vocabulary: Vocabulary, pystr: Value -> string)
    requires from < |messages| && !Sibling(messages[from], vocabulary)
    ensures ExchangesFrom(messages, from, vocabulary, pystr) == ExchangesFrom(messages, from + 1, vocabulary, pystr)
  {
  }

  // ---------- What the walk promises ----------

  ghost predicate Has(exchanges: seq<Exchange>, a: int, b: int, c: int) {
    exists k :: 0 <= k < |exchanges| && exchanges[k].start == a && exchanges[k].split == b && exchanges[k].end == c
  }

  /** A position where the walk may stand: no response run continues across it. */
  ghost predicate Boundary(messages: seq<MessageView>, from: nat, vocabulary: Vocabulary)
    requires from <= |messages|
  {
    from == 0 || from == |messages| || !Sibling(messages[from - 1], vocabulary) || !Sibling(messages[from], vocabulary)
  }

  lemma {:induction false} FromMeetsGrammar(
    messages: seq<MessageView>, from: nat, vocabulary: Vocabulary, pystr: Value -> string, a: int, b: int, c: int)
    requires from <= |messages|
    requires Boundary(messages, from, vocabulary)
    ensures Has(ExchangesFrom(messages, from, vocabulary, pystr), a, b, c)
       <==> from <= a && IsExchange(messages, vocabulary, a, b, c)
    decreases |messages| - from
  {
    var found := ExchangesFrom(messages, from, vocabulary, pystr);
    if from == |messages| {
    } else if !Sibling(messages[from], vocabulary) {
      FromMeetsGrammar(messages, from + 1, vocabulary, pystr, a, b, c);
    } else {
      var split := SiblingEnd(messages, from, vocabulary);
      if !AnyCall(messages, from, split, vocabulary) {
        FromMeetsGrammar(messages, split, vocabulary, pystr, a, b, c);
        if from <= a && IsExchange(messages, vocabulary, a, b, c) && a < split {
          SameRun(messages, vocabulary, from, split, a, b, c);
        }
      } else {
        var end := OutputEnd(messages, split, vocabulary);
        var rest := ExchangesFrom(messages, end, vocabulary, pystr);
        assert found[1..] == rest;
        FromMeetsGrammar(messages, end, vocabulary, pystr, a, b, c);
        assert IsExchange(messages, vocabulary, from, split, end);
        HasCons(found, a, b, c);
        if split <= a < end {
          assert Output(messages[a], vocabulary);
        }
        if from <= a < split && IsExchange(messages, vocabulary, a, b, c) {
          SameRun(messages, vocabulary, from, split, a, b, c);
          OutputEndFrom(messages, split, c, vocabulary);
        }
      }
    }
  }

  lemma HasCons(exchanges: seq<Exchange>, a: int, b: int, c: int)
    requires exchanges != []
    ensures Has(exchanges, a, b, c) <==>
      (exchanges[0].start == a && exchanges[0].split == b && exchanges[0].end == c) || Has(exchanges[1..], a, b, c)
  {
    if Has(exchanges, a, b, c) {
      var k :| 0 <= k < |exchanges| && exchanges[k].start == a && exchanges[k].split == b && exchanges[k].end == c;
      if k > 0 {
        assert exchanges[1..][k - 1] == exchanges[k];
      }
    }
    if Has(exchanges[1..], a, b, c) {
      var k :| 0 <= k < |exchanges[1..]| && exchanges[1..][k].start == a && exchanges[1..][k].split == b
        && exchanges[1..][k].end == c;
      assert exchanges[k + 1] == exchanges[1..][k];
    }
  }

  /** A maximal run that begins inside another maximal run is that run. */
  lemma SameRun(messages: seq<MessageView>, vocabulary: Vocabulary, from: nat, split: nat, a: int, b: int, c: int)
    requires from < split <= |messages|
    requires forall i :: from <= i < split ==> Sibling(messages[i], vocabulary)
    requires split < |messages| ==> !Sibling(messages[split], vocabulary)
    requires from <= a < split && IsExchange(messages, vocabulary, a, b, c)
    ensures a == from && b == split
  {
    SiblingEndFrom(messages, a, b, vocabulary);
    SiblingEndFrom(messages, a, split, vocabulary);
  }

  /** The walk yields exactly the triples the grammar calls exchanges. */
  lemma WalkMeetsGrammar(messages: seq<MessageView>, vocabulary: Vocabulary, pystr: Value -> string)
    ensures forall a, b, c :: IsExchange(messages, vocabulary, a, b, c) <==>
              Has(ExchangesOf(messages, vocabulary, pystr), a, b, c)
  {
    forall a, b, c
      ensures IsExchange(messages, vocabulary, a, b, c) <==> Has(ExchangesOf(messages, vocabulary, pystr), a, b, c)
    {
      FromMeetsGrammar(messages, 0, vocabulary, pystr, a, b, c);
    }
  }

  /** The exchanges lie in order from `from` on, disjoint, each with the embedded results of its own run. */
  ghost predicate Laid(messages: seq<MessageView>, from: nat, vocabulary: Vocabulary, pystr: Value -> string,
                       found: seq<Exchange>) {
    && (forall k :: 0 <= k < |found| ==>
          && from <= found[k].start < found[k].split <= found[k].end <= |messages|
          && found[k].embedded == Embedded(messages, found[k].start, found[k].split, vocabulary, pystr))
    && (forall j, k :: 0 <= j < k < |found| ==> found[j].end <= found[k].start)
  }

  /** Exchanges are disjoint and come in transcript order. */
  lemma {:induction false} WalkIsOrdered(
    messages: seq<MessageView>, from: nat, vocabulary: Vocabulary, pystr: Value -> string)
    requires from <= |messages|
    ensures Laid(messages, from, vocabulary, pystr, ExchangesFrom(messages, from, vocabulary, pystr))
    decreases |messages| - from
  {
    if from == |messages| {
    } else if !Sibling(messages[from], vocabulary) {
      WalkIsOrdered(messages, from + 1, vocabulary, pystr);
    } else {
      var split := SiblingEnd(messages, from, vocabulary);
      assert split > from;
      if !AnyCall(messages, from, split, vocabulary) {
        WalkIsOrdered(messages, split, vocabulary, pystr);
      } else {
        var end := OutputEnd(messages, split, vocabulary);
        var rest := ExchangesFrom(messages, end, vocabulary, pystr);
        WalkIsOrdered(messages, end, vocabulary, pystr);
        var found := ExchangesFrom(messages, from, vocabulary, pystr);
        assert found[0].start == from && found[0].split == split && found[0].end == end;
        assert forall k :: 0 < k < |found| ==> found[k] == rest[k - 1];
      }
    }
  }

  /** What `embedded` lists: exactly the result contents of the run, by coordinates. */
  lemma {:induction false} EmbeddedCovers(
    messages: seq<MessageView>, from: nat, until: nat, vocabulary: Vocabulary, pystr: Value -> string, m: nat, c: nat)
    requires from <= until <= |messages|
    ensures (exists o :: o in Embedded(messages, from, until, vocabulary, pystr)
                      && o.messageIndex == m && o.contentIndex == c)
       <==> from <= m < until && c < |messages[m].contents| && KindIn(messages[m].contents[c], vocabulary.results)
    decreases until - from
  {
    if from < until {
      EmbeddedInCovers(messages[from], from, 0, vocabulary, pystr, m, c);
      EmbeddedCovers(messages, from + 1, until, vocabulary, pystr, m, c);
      var head := EmbeddedIn(messages[from], from, 0, vocabulary, pystr);
      var tail := Embedded(messages, from + 1, until, vocabulary, pystr);
      assert forall o :: o in head + tail <==> o in head || o in tail;
    }
  }

  lemma {:induction false} EmbeddedInCovers(
    message: MessageView, index: nat, from: nat, vocabulary: Vocabulary, pystr: Value -> string, m: nat, c: nat)
    requires from <= |message.contents|
    ensures (exists o :: o in EmbeddedIn(message, index, from, vocabulary, pystr)
                      && o.messageIndex == m && o.contentIndex == c)
       <==> m == index && from <= c < |message.contents| && KindIn(message.contents[c], vocabulary.results)
    decreases |message.contents| - from
  {
    if from < |message.contents| {
      EmbeddedInCovers(message, index, from + 1, vocabulary, pystr, m, c);
      var tail := EmbeddedIn(message, index, from + 1, vocabulary, pystr);
      var all := EmbeddedIn(message, index, from, vocabulary, pystr);
      if KindIn(message.contents[from], vocabulary.results) {
        assert all[0].messageIndex == index && all[0].contentIndex == from;
        assert forall o :: o in all <==> o == all[0] || o in tail;
      } else {
        assert all == tail;
      }
    }
  }

  /** An occurrence tells the kind, the error kind and the id of the content at its coordinates; an id that is neither a
      string nor absent is told by its `str`, and by the empty string if it is falsy. */
  predicate TellsContent(o: Occurrence, messages: seq<MessageView>, pystr: Value -> string) {
    && o.messageIndex < |messages| && o.contentIndex < |messages[o.messageIndex].contents|
    && var content := messages[o.messageIndex].contents[o.contentIndex];
       && content.kind == Some(o.kind) && content.errorKind == o.errorKind
       && (match content.id
           case Null => o.rawId == None
           case Str(s) => o.rawId == Some(s)
           case other => o.rawId == Some(if other.Truthy() then pystr(other) else ""))
  }

  predicate Earlier(o: Occurrence, p: Occurrence) {
    o.messageIndex < p.messageIndex || (o.messageIndex == p.messageIndex && o.contentIndex < p.contentIndex)
  }

  /** What `embedded` tells of the results of the run, in transcript order. */
  lemma {:induction false} EmbeddedTells(
    messages: seq<MessageView>, from: nat, until: nat, vocabulary: Vocabulary, pystr: Value -> string)
    requires from <= until <= |messages|
    ensures var all := Embedded(messages, from, until, vocabulary, pystr);
      && (forall o :: o in all ==> TellsContent(o, messages, pystr) && from <= o.messageIndex)
      && (forall i, j :: 0 <= i < j < |all| ==> Earlier(all[i], all[j]))
    decreases until - from
  {
    hide TellsContent;
    if from < until {
      EmbeddedInTells(messages, from, 0, vocabulary, pystr);
      EmbeddedTells(messages, from + 1, until, vocabulary, pystr);
      var head := EmbeddedIn(messages[from], from, 0, vocabulary, pystr);
      var tail := Embedded(messages, from + 1, until, vocabulary, pystr);
      assert Embedded(messages, from, until, vocabulary, pystr) == head + tail;
      forall i, j | 0 <= i < j < |head + tail|
        ensures Earlier((head + tail)[i], (head + tail)[j])
      {
        if i >= |head| {
          assert Earlier(tail[i - |head|], tail[j - |head|]);
        } else if j >= |head| {
          assert head[i] in head && tail[j - |head|] in tail;
        }
      }
    }
  }

  lemma {:induction false} EmbeddedInTells(
    messages: seq<MessageView>, index: nat, from: nat, vocabulary: Vocabulary, pystr: Value -> string)
    requires index < |messages| && from <= |messages[index].contents|
    ensures var all := EmbeddedIn(messages[index], index, from, vocabulary, pystr);
      && (forall o :: o in all ==>
            TellsContent(o, messages, pystr) && o.messageIndex == index && from <= o.contentIndex)
      && (forall i, j :: 0 <= i < j < |all| ==> Earlier(all[i], all[j]))
    decreases |messages[index].contents| - from
  {
    if from < |messages[index].contents| {
      EmbeddedInTells(messages, index, from + 1, vocabulary, pystr);
      var content := messages[index].contents[from];
      if KindIn(content, vocabulary.results) {
        var o := Occurrence(index, from, StructuralId(content.id, pystr), content.kind.value, content.errorKind);
        var tail := EmbeddedIn(messages[index], index, from + 1, vocabulary, pystr);
        assert TellsContent(o, messages, pystr);
        assert EmbeddedIn(messages[index], index, from, vocabulary, pystr) == [o] + tail;
        EarlierFirst(o, tail);
      }
    }
  }

  lemma EarlierFirst(o: Occurrence, tail: seq<Occurrence>)
    requires forall p :: p in tail ==> Earlier(o, p)
    requires forall i, j :: 0 <= i < j < |tail| ==> Earlier(tail[i], tail[j])
    ensures var all := [o] + tail; forall i, j :: 0 <= i < j < |all| ==> Earlier(all[i], all[j])
  {
    hide Earlier;
    var all := [o] + tail;
    forall i, j | 0 <= i < j < |all|
      ensures Earlier(all[i], all[j])
    {
      assert all[j] == tail[j - 1];
      if i > 0 {
        assert Earlier(tail[i - 1], tail[j - 1]);
      }
    }
  }

  function ShiftOccurrence(occurrence: Occurrence, offset: nat): Occurrence {
    occurrence.(messageIndex := occurrence.messageIndex + offset)
  }

  function ShiftOccurrences(occurrences: seq<Occurrence>, offset: nat): (shifted: seq<Occurrence>)
    ensures |shifted| == |occurrences|
  {
    seq(|occurrences|, i requires 0 <= i < |occurrences| => ShiftOccurrence(occurrences[i], offset))
  }

  function Shift(exchange: Exchange, offset: nat): Exchange {
    Exchange(exchange.start + offset, exchange.split + offset, exchange.end + offset, ShiftOccurrences(exchange.embedded, offset))
  }

  function ShiftAll(exchanges: seq<Exchange>, offset: nat): (shifted: seq<Exchange>)
    ensures |shifted| == |exchanges|
  {
    seq(|exchanges|, i requires 0 <= i < |exchanges| => Shift(exchanges[i], offset))
  }

  lemma {:induction false} EmbeddedInShift(
    message: MessageView, index: nat, offset: nat, from: nat, vocabulary: Vocabulary, pystr: Value -> string)
    requires from <= |message.contents|
    ensures EmbeddedIn(message, index + offset, from, vocabulary, pystr)
         == ShiftOccurrences(EmbeddedIn(message, index, from, vocabulary, pystr), offset)
    decreases |message.contents| - from
  {
    if from < |message.contents| {
      EmbeddedInShift(message, index, offset, from + 1, vocabulary, pystr);
    }
  }

  lemma {:induction false} EmbeddedShift(
    prefix: seq<MessageView>, messages: seq<MessageView>, from: nat, until: nat, vocabulary: Vocabulary,
    pystr: Value -> string)
    requires from <= until <= |messages|
    ensures Embedded(prefix + messages, |prefix| + from, |prefix| + until, vocabulary, pystr)
         == ShiftOccurrences(Embedded(messages, from, until, vocabulary, pystr), |prefix|)
    decreases until - from
  {
    if from < until {
      EmbeddedInShift(messages[from], from, |prefix|, 0, vocabulary, pystr);
      EmbeddedShift(prefix, messages, from + 1, until, vocabulary, pystr);
    }
  }

  lemma EndsShift(prefix: seq<MessageView>, messages: seq<MessageView>, from: nat, vocabulary: Vocabulary)
    requires from <= |messages|
    ensures SiblingEnd(prefix + messages, |prefix| + from, vocabulary)
         == |prefix| + SiblingEnd(messages, from, vocabulary)
    ensures OutputEnd(prefix + messages, |prefix| + from, vocabulary) == |prefix| + OutputEnd(messages, from, vocabulary)
  {
    var all := prefix + messages;
    assert forall i :: |prefix| <= i < |all| ==> all[i] == messages[i - |prefix|];
    SiblingEndFrom(all, |prefix| + from, |prefix| + SiblingEnd(messages, from, vocabulary), vocabulary);
    OutputEndFrom(all, |prefix| + from, |prefix| + OutputEnd(messages, from, vocabulary), vocabulary);
  }

  lemma NothingShifts(offset: nat)
    ensures ShiftAll([], offset) == []
  {
  }

  lemma ShiftFirst(exchange: Exchange, rest: seq<Exchange>, offset: nat)
    ensures ShiftAll([exchange] + rest, offset) == [Shift(exchange, offset)] + ShiftAll(rest, offset)
  {
  }

  /** The walk at a response run. */
  lemma RunUnfolds(messages: seq<MessageView>, from: nat, vocabulary: Vocabulary, pystr: Value -> string)
    requires from < |messages| && Sibling(messages[from], vocabulary)
    ensures var split := SiblingEnd(messages, from, vocabulary);
      ExchangesFrom(messages, from, vocabulary, pystr)
      == if AnyCall(messages, from, split, vocabulary) then
           var end := OutputEnd(messages, split, vocabulary);
           [Exchange(from, split, end, Embedded(messages, from, split, vocabulary, pystr))]
           + ExchangesFrom(messages, end, vocabulary, pystr)
         else ExchangesFrom(messages, split, vocabulary, pystr)
  {
  }

  lemma PlainRunUnfolds(messages: seq<MessageView>, from: nat, split: nat, vocabulary: Vocabulary, pystr: Value -> string)
    requires from < |messages| && Sibling(messages[from], vocabulary) && split == SiblingEnd(messages, from, vocabulary)
    requires split <= |messages| && !AnyCall(messages, from, split, vocabulary)
    ensures ExchangesFrom(messages, from, vocabulary, pystr) == ExchangesFrom(messages, split, vocabulary, pystr)
  {
  }

  lemma CallRunUnfolds(messages: seq<MessageView>, from: nat, split: nat, end: nat, vocabulary: Vocabulary,
                       pystr: Value -> string)
    requires from < |messages| && Sibling(messages[from], vocabulary) && split == SiblingEnd(messages, from, vocabulary)
    requires split <= |messages| && AnyCall(messages, from, split, vocabulary)
    requires end == OutputEnd(messages, split, vocabulary) && end <= |messages|
    ensures ExchangesFrom(messages, from, vocabulary, pystr)
         == [Exchange(from, split, end, Embedded(messages, from, split, vocabulary, pystr))]
            + ExchangesFrom(messages, end, vocabulary, pystr)
  {
  }

  /** One response run and its outputs, shifted. */
  lemma ExchangeShift(
    prefix: seq<MessageView>, messages: seq<MessageView>, from: nat, vocabulary: Vocabulary, pystr: Value -> string)
    requires from < |messages| && Sibling(messages[from], vocabulary)
    requires AnyCall(messages, from, SiblingEnd(messages, from, vocabulary), vocabulary)
    ensures var split := SiblingEnd(messages, from, vocabulary);
      var all, end := prefix + messages, OutputEnd(messages, split, vocabulary);
      && ExchangesFrom(all, |prefix| + from, vocabulary, pystr)
         == [Shift(Exchange(from, split, end, Embedded(messages, from, split, vocabulary, pystr)), |prefix|)]
            + ExchangesFrom(all, |prefix| + end, vocabulary, pystr)
  {
    hide AnyCall, Embedded, ExchangesFrom, SiblingEnd, OutputEnd, Sibling;
    var all, split := prefix + messages, SiblingEnd(messages, from, vocabulary);
    var end := OutputEnd(messages, split, vocabulary);
    SiblingShift(prefix, messages, from, vocabulary);
    assert OutputEnd(all, |prefix| + split, vocabulary) == |prefix| + end by {
      EndsShift(prefix, messages, split, vocabulary);
    }
    ShiftedRange(prefix, messages, from, split, vocabulary);
    EmbeddedShift(prefix, messages, from, split, vocabulary, pystr);
    CallRunUnfolds(all, |prefix| + from, |prefix| + split, |prefix| + end, vocabulary, pystr);
  }

  lemma PlainRunShift(
    prefix: seq<MessageView>, messages: seq<MessageView>, from: nat, vocabulary: Vocabulary, pystr: Value -> string)
    requires from < |messages| && Sibling(messages[from], vocabulary)
    requires !AnyCall(messages, from, SiblingEnd(messages, from, vocabulary), vocabulary)
    ensures ExchangesFrom(prefix + messages, |prefix| + from, vocabulary, pystr)
         == ExchangesFrom(prefix + messages, |prefix| + SiblingEnd(messages, from, vocabulary), vocabulary, pystr)
  {
    hide AnyCall, ExchangesFrom, SiblingEnd, OutputEnd, Embedded, Sibling;
    var all, split := prefix + messages, SiblingEnd(messages, from, vocabulary);
    SiblingShift(prefix, messages, from, vocabulary);
    ShiftedRange(prefix, messages, from, split, vocabulary);
    PlainRunUnfolds(all, |prefix| + from, |prefix| + split, vocabulary, pystr);
  }

  /** Messages before the walk's position do not matter, except for the indices. */
  lemma {:induction false} WalkShift(
    prefix: seq<MessageView>, messages: seq<MessageView>, from: nat, vocabulary: Vocabulary, pystr: Value -> string)
    requires from <= |messages|
    ensures ExchangesFrom(prefix + messages, |prefix| + from, vocabulary, pystr)
         == ShiftAll(ExchangesFrom(messages, from, vocabulary, pystr), |prefix|)
    decreases |messages| - from
  {
    hide AnyCall, Embedded, ShiftAll;
    if from == |messages| {
      assert ShiftAll([], |prefix|) == [] by { NothingShifts(|prefix|); }
    } else {
      assert (prefix + messages)[|prefix| + from] == messages[from];
      if !Sibling(messages[from], vocabulary) {
        WalkShift(prefix, messages, from + 1, vocabulary, pystr);
      } else {
        var split := SiblingEnd(messages, from, vocabulary);
        RunUnfolds(messages, from, vocabulary, pystr);
        if AnyCall(messages, from, split, vocabulary) {
          var end := OutputEnd(messages, split, vocabulary);
          WalkShift(prefix, messages, end, vocabulary, pystr);
          ExchangeShift(prefix, messages, from, vocabulary, pystr);
          ShiftFirst(Exchange(from, split, end, Embedded(messages, from, split, vocabulary, pystr)),
                     ExchangesFrom(messages, end, vocabulary, pystr), |prefix|);
        } else {
          WalkShift(prefix, messages, split, vocabulary, pystr);
          PlainRunShift(prefix, messages, from, vocabulary, pystr);
        }
      }
    }
  }

  /** A response run, shifted. */
  lemma SiblingShift(prefix: seq<MessageView>, messages: seq<MessageView>, from: nat, vocabulary: Vocabulary)
    requires from < |messages| && Sibling(messages[from], vocabulary)
    ensures Sibling((prefix + messages)[|prefix| + from], vocabulary)
    ensures SiblingEnd(prefix + messages, |prefix| + from, vocabulary)
         == |prefix| + SiblingEnd(messages, from, vocabulary)
  {
    hide Sibling, SiblingEnd;
    EndsShift(prefix, messages, from, vocabulary);
  }

  lemma ShiftedRange(prefix: seq<MessageView>, messages: seq<MessageView>, from: nat, until: nat, vocabulary: Vocabulary)
    requires from <= until <= |messages|
    ensures AnyCall(prefix + messages, |prefix| + from, |prefix| + until, vocabulary)
       <==> AnyCall(messages, from, until, vocabulary)
  {
    if AnyCall(messages, from, until, vocabulary) {
      var i :| from <= i < until && CarriesCall(messages[i], vocabulary);
      assert (prefix + messages)[|prefix| + i] == messages[i];
    }
  }

  lemma {:induction false} EmbeddedPrefix(
    messages: seq<MessageView>, suffix: seq<MessageView>, from: nat, until: nat, vocabulary: Vocabulary,
    pystr: Value -> string)
    requires from <= until <= |messages|
    ensures Embedded(messages + suffix, from, until, vocabulary, pystr) == Embedded(messages, from, until, vocabulary, pystr)
    decreases until - from
  {
    if from < until {
      EmbeddedPrefix(messages, suffix, from + 1, until, vocabulary, pystr);
    }
  }

  /** A marked message ends the walk over what precedes it. */
  lemma {:induction false} WalkUpToMarker(
    messages: seq<MessageView>, marker: MessageView, rest: seq<MessageView>, from: nat, vocabulary: Vocabulary,
    pystr: Value -> string)
    requires marker.marked
    requires from <= |messages|
    ensures ExchangesFrom(messages + ([marker] + rest), from, vocabulary, pystr)
         == ExchangesFrom(messages, from, vocabulary, pystr)
            + ExchangesFrom(messages + ([marker] + rest), |messages| + 1, vocabulary, pystr)
    decreases |messages| - from
  {
    var suffix := [marker] + rest;
    var all := messages + suffix;
    assert all[|messages|] == marker;
    if from == |messages| {
    } else if !Sibling(messages[from], vocabulary) {
      WalkUpToMarker(messages, marker, rest, from + 1, vocabulary, pystr);
    } else {
      var split := SiblingEnd(messages, from, vocabulary);
      SiblingEndFrom(all, from, split, vocabulary);
      assert forall i :: from <= i < split ==> all[i] == messages[i];
      if !AnyCall(messages, from, split, vocabulary) {
        WalkUpToMarker(messages, marker, rest, split, vocabulary, pystr);
      } else {
        var end := OutputEnd(messages, split, vocabulary);
        OutputEndFrom(all, split, end, vocabulary);
        EmbeddedPrefix(messages, suffix, from, split, vocabulary, pystr);
        WalkUpToMarker(messages, marker, rest, end, vocabulary, pystr);
      }
    }
  }

  /** A history marker is a hard boundary: the two sides are walked independently. */
  lemma MarkerSplitsWalk(
    before: seq<MessageView>, marker: MessageView, after: seq<MessageView>, vocabulary: Vocabulary,
    pystr: Value -> string)
    requires marker.marked
    ensures ExchangesOf(before + ([marker] + after), vocabulary, pystr)
         == ExchangesOf(before, vocabulary, pystr) + ShiftAll(ExchangesOf(after, vocabulary, pystr), |before| + 1)
  {
    WalkUpToMarker(before, marker, after, 0, vocabulary, pystr);
    var prefix := before + [marker];
    assert prefix + after == before + ([marker] + after);
    WalkShift(prefix, after, 0, vocabulary, pystr);
  }
}
