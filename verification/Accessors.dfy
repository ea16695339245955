/** Which facts of a message the walks read, told from the names in it. */
module Accessors {
  import opened Values
  import opened Transcript

  const CALL_NAMES: set<string> := {
    "function_call", "hosted_tool_call", "code_interpreter_tool_call", "image_generation_tool_call",
    "mcp_server_tool_call", "search_tool_call", "shell_tool_call"
  }

  const RESULT_NAMES: set<string> := {
    "function_result", "hosted_tool_result", "code_interpreter_tool_result", "image_generation_tool_result",
    "mcp_server_tool_result", "search_tool_result", "shell_tool_result"
  }

  /** The types that are calls and results, live and serialized. */
  lemma TypesAreNamed(name: string)
    ensures KindOf(name) in LIVE_VOCABULARY.calls <==> name in CALL_NAMES
    ensures KindOf(name) in DICT_VOCABULARY.calls <==> name in CALL_NAMES || name == "legacy"
    ensures KindOf(name) in LIVE_VOCABULARY.results <==> name in RESULT_NAMES
    ensures KindOf(name) in DICT_VOCABULARY.results <==> name in RESULT_NAMES
  {
  }

  /** The name of a type. */
  function NameOf(kind: Kind): string {
    match kind
    case FunctionCall => "function_call"
    case HostedCall => "hosted_tool_call"
    case CodeInterpreterCall => "code_interpreter_tool_call"
    case ImageGenerationCall => "image_generation_tool_call"
    case McpServerCall => "mcp_server_tool_call"
    case SearchCall => "search_tool_call"
    case ShellCall => "shell_tool_call"
    case FunctionResult => "function_result"
    case HostedResult => "hosted_tool_result"
    case CodeInterpreterResult => "code_interpreter_tool_result"
    case ImageGenerationResult => "image_generation_tool_result"
    case McpServerResult => "mcp_server_tool_result"
    case SearchResult => "search_tool_result"
    case ShellResult => "shell_tool_result"
    case Legacy => "legacy"
    case OtherKind(name) => name
  }

  lemma CallComesBack(name: string)
    requires name in CALL_NAMES
    ensures NameOf(KindOf(name)) == name
  {
  }

  lemma ResultComesBack(name: string)
    requires name in RESULT_NAMES
    ensures NameOf(KindOf(name)) == name
  {
    hide KindOf, NameOf;
    if name in {"function_result", "hosted_tool_result", "code_interpreter_tool_result"} {
      FirstResultComesBack(name);
    } else {
      LastResultComesBack(name);
    }
  }

  lemma FirstResultComesBack(name: string)
    requires name in {"function_result", "hosted_tool_result", "code_interpreter_tool_result"}
    ensures NameOf(KindOf(name)) == name
  {
  }

  lemma LastResultComesBack(name: string)
    requires name in {"image_generation_tool_result", "mcp_server_tool_result", "search_tool_result", "shell_tool_result"}
    ensures NameOf(KindOf(name)) == name
  {
    hide NameOf;
    if name == "image_generation_tool_result" {
      assert KindOf("image_generation_tool_result") == ImageGenerationResult;
    } else if name == "mcp_server_tool_result" {
      assert KindOf("mcp_server_tool_result") == McpServerResult;
    } else if name == "search_tool_result" {
      assert KindOf("search_tool_result") == SearchResult;
    } else {
      assert KindOf("shell_tool_result") == ShellResult;
    }
    LastNames();
  }

  lemma LastNames()
    ensures NameOf(ImageGenerationResult) == "image_generation_tool_result" && NameOf(McpServerResult) == "mcp_server_tool_result"
    ensures NameOf(SearchResult) == "search_tool_result" && NameOf(ShellResult) == "shell_tool_result"
  {
  }

  lemma OtherComesBack(name: string)
    requires name !in CALL_NAMES && name !in RESULT_NAMES
    ensures NameOf(KindOf(name)) == name
  {
  }

  lemma NameComesBack(name: string)
    ensures NameOf(KindOf(name)) == name
  {
    hide KindOf, NameOf;
    if name in CALL_NAMES {
      CallComesBack(name);
    } else if name in RESULT_NAMES {
      ResultComesBack(name);
    } else {
      OtherComesBack(name);
    }
  }

  /** Different names are different types, also to the walks. */
  lemma NamesTellTypes(a: string, b: string)
    ensures KindOf(a) == KindOf(b) <==> a == b
  {
    hide KindOf, NameOf;
    NameComesBack(a);
    NameComesBack(b);
  }

  lemma ErrorKindsAreNamed(name: string)
    ensures ErrorKindNamed(name).Prevalidation() <==> name in {"argument_parsing", "argument_truncated", "tool_not_found"}
  {
  }

  /** Images pair by image id, everything else by call id. */
  function IdIn(name: string, attributes: map<string, Value>): Value {
    var key := if name in {"image_generation_tool_call", "image_generation_tool_result"} then "image_id" else "call_id";
    if key in attributes then attributes[key] else Null
  }

  function ErrorIn(properties: map<string, Value>): Option<string> {
    if "tool_error_kind" in properties && properties["tool_error_kind"].Str? then Some(properties["tool_error_kind"].s) else None
  }

  /** Two live contents look alike to the walks exactly if these facts are the same. */
  lemma LiveFacts(a: LiveContent, b: LiveContent)
    ensures LiveContentView(a) == LiveContentView(b) <==>
            && a.kind == b.kind && IdIn(a.kind, a.attributes) == IdIn(b.kind, b.attributes)
            && Get(a.attributes, "informational_only").Truthy() == Get(b.attributes, "informational_only").Truthy()
            && ErrorIn(a.properties) == ErrorIn(b.properties)
  {
    hide KindOf;
    NamesTellTypes(a.kind, b.kind);
    ImagesAre(a.kind);
    ImagesAre(b.kind);
    ErrorsTell(a.properties, b.properties);
  }

  lemma ImagesAre(name: string)
    ensures KindOf(name).Image() <==> name in {"image_generation_tool_call", "image_generation_tool_result"}
  {
  }

  lemma ErrorsTell(a: map<string, Value>, b: map<string, Value>)
    ensures ErrorKindOf(a) == ErrorKindOf(b) <==> ErrorIn(a) == ErrorIn(b)
  {
  }

  /** A serialized content that is a mapping; anything else tells nothing. */
  function TypeIn(entries: map<string, Value>): Option<string> {
    if "type" in entries && entries["type"].Str? then Some(entries["type"].s) else None
  }

  function PropertiesIn(entries: map<string, Value>): map<string, Value> {
    if "additional_properties" in entries && entries["additional_properties"].Dict?
    then entries["additional_properties"].entries else map[]
  }

  predicate InformationalIn(entries: map<string, Value>) {
    Get(entries, "informational_only").Truthy() || TypeIn(entries) == Some("mcp_server_tool_call")
  }

  /** The same of serialized contents. */
  lemma DictFacts(a: map<string, Value>, b: map<string, Value>)
    ensures DictContentView(Dict(a)) == DictContentView(Dict(b)) <==>
            && TypeIn(a) == TypeIn(b)
            && IdIn(if TypeIn(a).Some? then TypeIn(a).value else "", a) == IdIn(if TypeIn(b).Some? then TypeIn(b).value else "", b)
            && InformationalIn(a) == InformationalIn(b)
            && ErrorIn(PropertiesIn(a)) == ErrorIn(PropertiesIn(b))
  {
    hide KindOf, ErrorKindOf;
    if TypeIn(a).Some? && TypeIn(b).Some? {
      NamesTellTypes(TypeIn(a).value, TypeIn(b).value);
    }
    DictType(a);
    DictType(b);
    ErrorsTell(PropertiesIn(a), PropertiesIn(b));
    assert ErrorKindOf(map[]) == None by { NoError(); }
  }

  lemma NoError()
    ensures ErrorKindOf(map[]) == None
  {
  }

  lemma DictType(entries: map<string, Value>)
    ensures TypeIn(entries).Some? ==>
              && ImagesAt(TypeIn(entries).value)
              && (KindOf(TypeIn(entries).value).McpServerCall? <==> TypeIn(entries).value == "mcp_server_tool_call")
  {
    if TypeIn(entries).Some? {
      ImagesAre(TypeIn(entries).value);
    }
  }

  predicate ImagesAt(name: string) {
    KindOf(name).Image() <==> name in {"image_generation_tool_call", "image_generation_tool_result"}
  }
}
