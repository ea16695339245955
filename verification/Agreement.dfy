/** Live transcripts and their serializations are walked alike. */
module Agreement {
  import opened Values
  import opened Transcript
  import opened Exchanges
  import opened Pairing

  function IdField(content: LiveContent): string {
    if KindOf(content.kind).Image() then "image_id" else "call_id"
  }

  /** No tuple and no object with an export of its own in it, at any depth. */
  ghost predicate StaysItself(value: Value) {
    match value
    case List(items) => forall i :: 0 <= i < |items| ==> StaysItself(items[i])
    case Dict(entries) => forall key :: key in entries ==> StaysItself(entries[key])
    case Tuple(_) => false
    case Exporting(_) => false
    case _ => true
  }

  /** Serialization keeps exactly those values. */
  lemma {:induction false} SerializesItself(value: Value)
    ensures Serialize(value) == value <==> StaysItself(value)
  {
    match value
    case List(items) =>
      forall i | 0 <= i < |items|
        ensures Serialize(items[i]) == items[i] <==> StaysItself(items[i])
      {
        SerializesItself(items[i]);
      }
      if Serialize(value) == value {
        forall i | 0 <= i < |items|
          ensures StaysItself(items[i])
        {
          assert Serialize(value).items[i] == items[i];
        }
      } else {
        assert Serialize(value).items != items;
      }
    case Dict(entries) =>
      forall key | key in entries
        ensures Serialize(entries[key]) == entries[key] <==> StaysItself(entries[key])
      {
        SerializesItself(entries[key]);
      }
      if Serialize(value) == value {
        forall key | key in entries
          ensures StaysItself(entries[key])
        {
          assert Serialize(value).entries[key] == entries[key];
        }
      } else {
        assert Serialize(value).entries != entries;
      }
    case _ =>
  }

  /** What serialization preserves of a content: an id that serializes to itself, and an informational flag
      that is set on function and MCP calls only, and always on the latter. */
  ghost predicate ContentSurvives(content: LiveContent) {
    var informational := Get(content.attributes, "informational_only").Truthy();
    var kind := KindOf(content.kind);
    && StaysItself(Get(content.attributes, IdField(content)))
    && (informational ==> kind.FunctionCall? || kind.McpServerCall?)
    && (kind.McpServerCall? ==> informational)
  }

  lemma ContentAgrees(content: LiveContent, excludeNone: bool)
    requires Get(content.attributes, "informational_only").Scalar()
    ensures DictContentView(ContentToDict(content, excludeNone)) == LiveContentView(content)
       <==> ContentSurvives(content)
  {
    TypeSerialized(content, excludeNone);
    PropertiesSerialized(content, excludeNone);
    IdSerialized(content, excludeNone);
    FlagSerialized(content, excludeNone);
    DictViewOf(ContentToDict(content, excludeNone).entries, content.kind);
    hide StaysItself, Serialize, KindOf, ContentToDict, DictContentView, ErrorKindOf;
    SerializesItself(Get(content.attributes, IdField(content)));
  }

  lemma DictViewOf(entries: map<string, Value>, name: string)
    requires Get(entries, "type") == Str(name)
    requires Get(entries, "additional_properties").Dict?
    ensures var view := DictContentView(Dict(entries));
      && view.kind == Some(KindOf(name))
      && view.id == Get(entries, if KindOf(name).Image() then "image_id" else "call_id")
      && view.informational == (Get(entries, "informational_only").Truthy() || KindOf(name).McpServerCall?)
      && view.errorKind == ErrorKindOf(Get(entries, "additional_properties").entries)
  {
  }

  lemma TypeSerialized(content: LiveContent, excludeNone: bool)
    ensures Get(ContentToDict(content, excludeNone).entries, "type") == Str(content.kind)
  {
  }

  lemma PropertiesSerialized(content: LiveContent, excludeNone: bool)
    ensures var properties := Get(ContentToDict(content, excludeNone).entries, "additional_properties");
      properties.Dict? && ErrorKindOf(properties.entries) == ErrorKindOf(content.properties)
  {
    hide CAPTURED_FIELDS, OMITTED_WHEN_NULL;
    var properties := Get(ContentToDict(content, excludeNone).entries, "additional_properties");
    assert properties == Serialize(Dict(content.properties));
    assert ERROR_KIND_KEY in content.properties ==>
      properties.entries[ERROR_KIND_KEY] == Serialize(content.properties[ERROR_KIND_KEY]);
  }

  lemma IdSerialized(content: LiveContent, excludeNone: bool)
    ensures Get(ContentToDict(content, excludeNone).entries, IdField(content))
         == Serialize(Get(content.attributes, IdField(content)))
  {
    hide KindOf, Serialize;
    IdNames();
    FieldSerialized(content, excludeNone, IdField(content));
  }

  /** The attributes that are captured whatever they hold. */
  predicate Unconditional(field: string) {
    && field in CAPTURED_FIELDS && field !in OMITTED_WHEN_NULL
    && field != "informational_only" && field != "provider_hosted" && field != "type" && field != "additional_properties"
  }

  lemma IdNames()
    ensures Unconditional("call_id") && Unconditional("image_id")
  {
  }

  lemma FieldSerialized(content: LiveContent, excludeNone: bool, field: string)
    requires Unconditional(field)
    ensures Get(ContentToDict(content, excludeNone).entries, field) == Serialize(Get(content.attributes, field))
  {
    hide KindOf, CAPTURED_FIELDS, OMITTED_WHEN_NULL;
  }

  lemma FlagSerialized(content: LiveContent, excludeNone: bool)
    requires Get(content.attributes, "informational_only").Scalar()
    ensures Get(ContentToDict(content, excludeNone).entries, "informational_only").Truthy()
       <==> KindOf(content.kind).FunctionCall? && Get(content.attributes, "informational_only").Truthy()
  {
    FlagName();
    hide CAPTURED_FIELDS, OMITTED_WHEN_NULL, KindOf;
  }

  lemma FlagName()
    ensures "informational_only" in CAPTURED_FIELDS && "informational_only" !in OMITTED_WHEN_NULL
    ensures "informational_only" !in {"provider_hosted", "type", "additional_properties"}
  {
  }

  /** The accessors agree on a message exactly when its contents survive and its marker, if any, is kept. */
  ghost predicate MessageSurvives(message: LiveMessage) {
    && (forall c :: 0 <= c < |message.contents| ==> ContentSurvives(message.contents[c]))
    && (MARKER_KEY in message.properties ==>
          !message.properties[MARKER_KEY].Tuple? && !message.properties[MARKER_KEY].Opaque?)
  }

  lemma MessageAgrees(message: LiveMessage, excludeNone: bool)
    requires forall c :: 0 <= c < |message.contents| ==>
               Get(message.contents[c].attributes, "informational_only").Scalar()
    ensures DictView(MessageToDict(message, excludeNone)) == LiveView(message) <==> MessageSurvives(message)
  {
    var image := MessageToDict(message, excludeNone);
    var live, dict := LiveView(message), DictView(image);
    assert Get(image, "role") == Str(message.role);
    assert Get(image, "contents").List? && |Get(image, "contents").items| == |message.contents|;
    forall c | 0 <= c < |message.contents|
      ensures dict.contents[c] == live.contents[c] <==> ContentSurvives(message.contents[c])
    {
      ContentAgrees(message.contents[c], excludeNone);
    }
    assert Get(image, "additional_properties").Dict?;
    assert dict.marked <==> MARKER_KEY in message.properties && Survives(message.properties[MARKER_KEY]);
    if live == dict {
      assert forall c :: 0 <= c < |message.contents| ==> dict.contents[c] == live.contents[c];
    }
  }

  function LiveViews(messages: seq<LiveMessage>): (views: seq<MessageView>)
    ensures |views| == |messages|
  {
    seq(|messages|, i requires 0 <= i < |messages| => LiveView(messages[i]))
  }

  function DictViews(messages: seq<LiveMessage>, excludeNone: bool): (views: seq<MessageView>)
    ensures |views| == |messages|
  {
    seq(|messages|, i requires 0 <= i < |messages| => DictView(MessageToDict(messages[i], excludeNone)))
  }

  ghost predicate NoLegacy(messages: seq<MessageView>) {
    forall m, c :: 0 <= m < |messages| && 0 <= c < |messages[m].contents| ==>
      messages[m].contents[c].kind != Some(Legacy)
  }

  lemma SameEnds(messages: seq<MessageView>, from: nat)
    requires from <= |messages|
    requires forall i :: 0 <= i < |messages| ==> SameClass(messages[i])
    ensures SiblingEnd(messages, from, LIVE_VOCABULARY) == SiblingEnd(messages, from, DICT_VOCABULARY)
    ensures OutputEnd(messages, from, LIVE_VOCABULARY) == OutputEnd(messages, from, DICT_VOCABULARY)
  {
    SiblingEndFrom(messages, from, SiblingEnd(messages, from, LIVE_VOCABULARY), DICT_VOCABULARY);
    OutputEndFrom(messages, from, OutputEnd(messages, from, LIVE_VOCABULARY), DICT_VOCABULARY);
  }

  ghost predicate SameClass(message: MessageView) {
    && (CarriesCall(message, LIVE_VOCABULARY) <==> CarriesCall(message, DICT_VOCABULARY))
    && (ResultOnly(message, LIVE_VOCABULARY) <==> ResultOnly(message, DICT_VOCABULARY))
  }

  lemma ClassIsSame(message: MessageView)
    requires forall c :: 0 <= c < |message.contents| ==> message.contents[c].kind != Some(Legacy)
    ensures SameClass(message)
  {
    assert forall c :: 0 <= c < |message.contents| ==>
      (KindIn(message.contents[c], LIVE_VOCABULARY.calls) <==> KindIn(message.contents[c], DICT_VOCABULARY.calls));
    assert LIVE_VOCABULARY.results == DICT_VOCABULARY.results;
  }

  lemma {:induction false} EmbeddedSame(messages: seq<MessageView>, from: nat, until: nat, pystr: Value -> string)
    requires from <= until <= |messages|
    ensures Embedded(messages, from, until, LIVE_VOCABULARY, pystr)
         == Embedded(messages, from, until, DICT_VOCABULARY, pystr)
    decreases until - from
  {
    if from < until {
      EmbeddedInSame(messages[from], from, 0, pystr);
      EmbeddedSame(messages, from + 1, until, pystr);
    }
  }

  lemma {:induction false} EmbeddedInSame(message: MessageView, index: nat, from: nat, pystr: Value -> string)
    requires from <= |message.contents|
    ensures EmbeddedIn(message, index, from, LIVE_VOCABULARY, pystr)
         == EmbeddedIn(message, index, from, DICT_VOCABULARY, pystr)
    decreases |message.contents| - from
  {
    if from < |message.contents| {
      EmbeddedInSame(message, index, from + 1, pystr);
    }
  }

  lemma {:induction false} WalkSame(messages: seq<MessageView>, from: nat, pystr: Value -> string)
    requires from <= |messages|
    requires NoLegacy(messages)
    ensures ExchangesFrom(messages, from, LIVE_VOCABULARY, pystr) == ExchangesFrom(messages, from, DICT_VOCABULARY, pystr)
    decreases |messages| - from
  {
    if from < |messages| {
      forall i | 0 <= i < |messages|
        ensures SameClass(messages[i])
      {
        ClassIsSame(messages[i]);
      }
      var split := SiblingEnd(messages, from, LIVE_VOCABULARY);
      SameEnds(messages, from);
      if !Sibling(messages[from], LIVE_VOCABULARY) {
        WalkSame(messages, from + 1, pystr);
      } else if !AnyCall(messages, from, split, LIVE_VOCABULARY) {
        WalkSame(messages, split, pystr);
      } else {
        SameEnds(messages, split);
        EmbeddedSame(messages, from, split, pystr);
        WalkSame(messages, OutputEnd(messages, split, LIVE_VOCABULARY), pystr);
      }
    }
  }

  /** A transcript without legacy contents, whose messages survive serialization, has the same exchanges and
      the same pairings under both accessors, for every policy. */
  lemma AccessorsAgree(messages: seq<LiveMessage>, excludeNone: bool, pystr: Value -> string)
    requires forall m, c :: 0 <= m < |messages| && 0 <= c < |messages[m].contents| ==>
               Get(messages[m].contents[c].attributes, "informational_only").Scalar()
    requires forall m :: 0 <= m < |messages| ==> MessageSurvives(messages[m])
    requires NoLegacy(LiveViews(messages))
    ensures var live, dict := LiveViews(messages), DictViews(messages, excludeNone);
      && ExchangesOf(live, LIVE_VOCABULARY, pystr) == ExchangesOf(dict, DICT_VOCABULARY, pystr)
      && forall policy, exchange :: InRange(exchange, live) ==>
           InRange(exchange, dict) && PairingOf(policy, live, exchange) == PairingOf(policy, dict, exchange)
  {
    var live, dict := LiveViews(messages), DictViews(messages, excludeNone);
    forall m | 0 <= m < |messages|
      ensures live[m] == dict[m]
    {
      MessageAgrees(messages[m], excludeNone);
    }
    assert live == dict;
    WalkSame(live, 0, pystr);
  }
}
