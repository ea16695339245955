/** What the transcript walks see of a message, and the two accessors that compute it
    from live objects and from their serializations. */
module Transcript {
  import opened Values

  /** A content type, told apart as far as the walks do. */
  datatype Kind =
    | FunctionCall | HostedCall | CodeInterpreterCall | ImageGenerationCall | McpServerCall | SearchCall | ShellCall
    | FunctionResult | HostedResult | CodeInterpreterResult | ImageGenerationResult | McpServerResult | SearchResult
    | ShellResult
    | Legacy
    | OtherKind(name: string)
  {
    /** The two kinds that pair on `image_id`. */
    predicate Image() {
      ImageGenerationCall? || ImageGenerationResult?
    }
  }

  const CALL_TYPES: set<Kind> := {
    FunctionCall, HostedCall, CodeInterpreterCall, ImageGenerationCall, McpServerCall, SearchCall, ShellCall
  }

  const RESULT_TYPES: set<Kind> := {
    FunctionResult, HostedResult, CodeInterpreterResult, ImageGenerationResult, McpServerResult, SearchResult, ShellResult
  }

  /** The kind a content type string names. */
  function KindOf(name: string): Kind {
    if name == "function_call" then FunctionCall
    else if name == "hosted_tool_call" then HostedCall
    else if name == "code_interpreter_tool_call" then CodeInterpreterCall
    else if name == "image_generation_tool_call" then ImageGenerationCall
    else if name == "mcp_server_tool_call" then McpServerCall
    else if name == "search_tool_call" then SearchCall
    else if name == "shell_tool_call" then ShellCall
    else if name == "function_result" then FunctionResult
    else if name == "hosted_tool_result" then HostedResult
    else if name == "code_interpreter_tool_result" then CodeInterpreterResult
    else if name == "image_generation_tool_result" then ImageGenerationResult
    else if name == "mcp_server_tool_result" then McpServerResult
    else if name == "search_tool_result" then SearchResult
    else if name == "shell_tool_result" then ShellResult
    else if name == "legacy" then Legacy
    else OtherKind(name)
  }

  /** The error kind a result carries; three of them mean the call was rejected before dispatch. */
  datatype ErrorKind = ArgumentParsing | ArgumentTruncated | ToolNotFound | OtherError(name: string)
  {
    predicate Prevalidation() {
      !OtherError?
    }
  }

  function ErrorKindNamed(name: string): ErrorKind {
    if name == "argument_parsing" then ArgumentParsing
    else if name == "argument_truncated" then ArgumentTruncated
    else if name == "tool_not_found" then ToolNotFound
    else OtherError(name)
  }

  const MARKER_KEY := "_chrys_kind"
  const ERROR_KIND_KEY := "tool_error_kind"

  /** The raw facts an accessor reports about one content. */
  datatype ContentView = ContentView(kind: Option<Kind>, id: Value, informational: bool, errorKind: Option<ErrorKind>)

  /** The raw facts an accessor reports about one message. */
  datatype MessageView = MessageView(role: Role, contents: seq<ContentView>, marked: bool)

  datatype Role = Assistant | Tool | OtherRole(name: string)

  function RoleNamed(name: string): Role {
    if name == "assistant" then Assistant else if name == "tool" then Tool else OtherRole(name)
  }

  /** The call and result content types of an accessor. */
  datatype Vocabulary = Vocabulary(calls: set<Kind>, results: set<Kind>)

  const LIVE_VOCABULARY := Vocabulary(CALL_TYPES, RESULT_TYPES)
  const DICT_VOCABULARY := Vocabulary(CALL_TYPES + {Legacy}, RESULT_TYPES)

  predicate KindIn(content: ContentView, kinds: set<Kind>) {
    content.kind.Some? && content.kind.value in kinds
  }

  predicate CarriesCall(message: MessageView, vocabulary: Vocabulary) {
    exists k :: 0 <= k < |message.contents| && KindIn(message.contents[k], vocabulary.calls)
  }

  predicate CarriesResult(message: MessageView, vocabulary: Vocabulary) {
    exists k :: 0 <= k < |message.contents| && KindIn(message.contents[k], vocabulary.results)
  }

  /** An assistant message that carries tool results and no call. */
  predicate ResultOnly(message: MessageView, vocabulary: Vocabulary) {
    message.role.Assistant? && !CarriesCall(message, vocabulary) && CarriesResult(message, vocabulary)
  }

  // ---------- Live objects ----------

  /** A live content: its type, its additional properties and its remaining attributes by name. */
  datatype LiveContent = LiveContent(kind: string, attributes: map<string, Value>, properties: map<string, Value>)

  datatype LiveMessage = LiveMessage(role: string, contents: seq<LiveContent>, properties: map<string, Value>)

  function ErrorKindOf(properties: map<string, Value>): Option<ErrorKind> {
    var kind := Get(properties, ERROR_KIND_KEY);
    if kind.Str? then Some(ErrorKindNamed(kind.s)) else None
  }

  function LiveContentView(content: LiveContent): ContentView {
    ContentView(
      Some(KindOf(content.kind)),
      Get(content.attributes, if KindOf(content.kind).Image() then "image_id" else "call_id"),
      Get(content.attributes, "informational_only").Truthy(),
      ErrorKindOf(content.properties))
  }

  function LiveView(message: LiveMessage): MessageView {
    MessageView(
      RoleNamed(message.role),
      seq(|message.contents|, i requires 0 <= i < |message.contents| => LiveContentView(message.contents[i])),
      MARKER_KEY in message.properties)
  }

  // ---------- Serialized objects ----------

  function DictContentView(content: Value): ContentView {
    if !content.Dict? then ContentView(None, Null, false, None)
    else
      var kind := Get(content.entries, "type");
      var properties := Get(content.entries, "additional_properties");
      ContentView(
        if kind.Str? then Some(KindOf(kind.s)) else None,
        Get(content.entries, if kind.Str? && KindOf(kind.s).Image() then "image_id" else "call_id"),
        Get(content.entries, "informational_only").Truthy() || (kind.Str? && KindOf(kind.s).McpServerCall?),
        if properties.Dict? then ErrorKindOf(properties.entries) else None)
  }

  function DictView(message: map<string, Value>): MessageView {
    var role := Get(message, "role");
    var contents := Get(message, "contents");
    var properties := Get(message, "additional_properties");
    var items := if contents.List? then contents.items else [];
    MessageView(
      RoleNamed(if role.Str? then role.s else ""),
      seq(|items|, i requires 0 <= i < |items| => DictContentView(items[i])),
      properties.Dict? && MARKER_KEY in properties.entries)
  }

  // ---------- Serialization ----------

  /** The attributes `Content.to_dict` captures besides the additional properties. */
  const CAPTURED_FIELDS: set<string> := {
    "text", "protected_data", "uri", "media_type", "message", "error_code", "error_details", "usage_details",
    "call_id", "name", "arguments", "informational_only", "exception", "result", "items", "file_id",
    "vector_store_id", "inputs", "outputs", "image_id", "commands", "timeout_ms", "max_output_length", "status",
    "stdout", "stderr", "exit_code", "timed_out", "tool_name", "server_name", "output", "id", "provider_hosted",
    "hosted_family", "hosted_provider", "provider_item_type", "provider_item_id", "provider_phase",
    "provider_status", "retry_safety"
  }

  const OMITTED_WHEN_NULL: set<string> := {
    "hosted_family", "hosted_provider", "provider_item_type", "provider_item_id", "provider_phase",
    "provider_status", "retry_safety"
  }

  function Serialize(value: Value): Value {
    match value
    case List(items) => List(seq(|items|, i requires 0 <= i < |items| => Serialize(items[i])))
    case Tuple(items) => List(seq(|items|, i requires 0 <= i < |items| => Serialize(items[i])))
    case Dict(entries) => Dict(map key | key in entries :: Serialize(entries[key]))
    case Exporting(image) => Dict(image)
    case _ => value
  }

  /** Whether `to_dict` writes the attribute `field`. */
  predicate Captured(content: LiveContent, field: string, excludeNone: bool) {
    var value := Get(content.attributes, field);
    && field in CAPTURED_FIELDS
    && (field == "informational_only" ==> KindOf(content.kind).FunctionCall? && value.Truthy())
    && (field == "provider_hosted" ==> value.Truthy())
    && (field in OMITTED_WHEN_NULL ==> !value.Null?)
    && (excludeNone ==> !value.Null?)
  }

  function ContentToDict(content: LiveContent, excludeNone: bool): Value {
    Dict(
      (map field | field in CAPTURED_FIELDS && Captured(content, field, excludeNone)
         :: Serialize(Get(content.attributes, field)))
      + map["type" := Str(content.kind), "additional_properties" := Serialize(Dict(content.properties))])
  }

  /** Whether the generic message serializer keeps a dictionary entry holding this value. */
  predicate Survives(value: Value) {
    !value.Tuple? && !value.Opaque?
  }

  function MessageToDict(message: LiveMessage, excludeNone: bool): map<string, Value> {
    map[
      "type" := Str("message"),
      "role" := Str(message.role),
      "contents" := List(seq(|message.contents|,
        i requires 0 <= i < |message.contents| => ContentToDict(message.contents[i], excludeNone))),
      "additional_properties" := Dict(map key | key in message.properties && Survives(message.properties[key])
        :: var value := message.properties[key];
           if value.Exporting? then Dict(value.image)
           else if value.Temporal? then Str(value.text)
           else value)]
  }
}
