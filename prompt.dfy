/** The input module: it assembles the prompt sent to the base model from a context template of
    modules, each made of text and variable segments and guarded by an importance flag or check,
    and it validates that template.

    Python's dynamic attribute lookup (`getattr(self, name)`) is replaced by an explicit table of
    named handlers next to the built-in relevance check. A Python exception that nothing catches
    is the outcome `Raised`. */
module Prompt {
  import opened Optional
  import opened Seqs
  import opened Strings
  import opened Json

  /** The outcome of a step that may raise a Python exception nobody catches. */
  datatype Outcome<+T> = Value(value: T) | Raised

  /** What a Python call did: it returned a value (with its truth value and its `str()`), or it
      raised an exception with the given message. */
  datatype Call = Returned(truthy: bool, text: string) | Threw(message: string)

  /** A callable attribute set on the input module (a custom importance check, say): what calling
      it with the user input does, and what calling it with no argument does. */
  datatype Handler = Handler(withInput: string -> Call, withoutInput: Call)

  /** A call returning a Python `bool`. */
  function BoolCall(b: bool): Call
  {
    Returned(b, if b then "True" else "False")
  }

  /** One long-term search result `(text, score)`, the score already rendered with two decimals. */
  datatype LongTermHit = LongTermHit(text: string, score: string)

  /** The memory management module as the input module uses it: the outcome of
      `retrieve_short_term_memory()` and of `retrieve_long_term_memory(query, top_k=3)`. */
  datatype MemoryView = MemoryView(shortTerm: Outcome<seq<string>>, longTerm: string -> Outcome<seq<LongTermHit>>)

  /** The base model interface: whether it has a `send_prompt` method. */
  datatype ModelInterface = ModelInterface(hasSendPrompt: bool)

  /** What prompt assembly consults besides the template: the named handlers and the memory module. */
  datatype Env = Env(handlers: map<string, Handler>, memory: Option<MemoryView>)

  const RelevantKeywords: seq<string> := ["之前", "以前", "记得", "历史", "总结", "回顾"]
  const RelevanceCheckName := "is_relevant_long_term_memory"
  const NoMemoryModule := "记忆管理模块未设置"
  const NoShortTermHistory := "无"
  const NoLongTermMemory := "无相关长期记忆"
  const RetrievalFailed := "获取失败"
  const ShortTermWindow := 5
  const PartSeparator := "\n\n"

  // ----- relevance and importance -----

  /** Some key of `keys` occurs in `s`. */
  function AnyOccurs(s: string, keys: seq<string>): (r: bool)
    ensures r <==> exists j :: 0 <= j < |keys| && Contains(s, keys[j])
  {
    if keys == [] then false
    else if Contains(s, keys[0]) then true
    else
      var r := AnyOccurs(s, keys[1..]);
      assert forall j :: 1 <= j < |keys| ==> keys[1..][j - 1] == keys[j];
      r
  }

  /** `is_relevant_long_term_memory`: the input mentions one of the six keywords. */
  function IsRelevantLongTermMemory(userInput: string): (r: bool)
    ensures r <==> exists j, i :: 0 <= j < |RelevantKeywords| && OccursAt(userInput, RelevantKeywords[j], i)
  {
    AnyOccurs(userInput, RelevantKeywords)
  }

  /** The truth value of calling the importance check called `name` with the user input: a
      registered handler comes first (an instance attribute hides the class's method), then the
      built-in relevance check; a handler that raises, and an unknown name, give false. */
  function ImportanceByName(env: Env, name: string, userInput: string): bool
  {
    if name in env.handlers then
      match env.handlers[name].withInput(userInput)
      case Returned(truthy, _) => truthy
      case Threw(_) => false
    else
      name == RelevanceCheckName && IsRelevantLongTermMemory(userInput)
  }

  /** `should_include_module`. It raises exactly when the module is not a dict (`.get` fails). */
  function ShouldIncludeModule(env: Env, entry: JValue, userInput: string): (r: Outcome<bool>)
    ensures r.Raised? <==> !entry.JObj?
  {
    if !entry.JObj? then Raised
    else
      match Get(entry.fields, "importance_func")
      case None => Value(true)
      case Some(JBool(b)) => Value(b)
      case Some(JStr(name)) => Value(ImportanceByName(env, name, userInput))
      case Some(_) => Value(false)
  }

  /** How `should_include_module` decides: a missing flag includes the module, a boolean flag is
      taken as it is, a name is called (its failure and an unknown name exclude), and any other
      kind of flag excludes. */
  lemma ShouldIncludeModuleSpec(env: Env, fields: map<string, JValue>, userInput: string)
    ensures "importance_func" !in fields ==> ShouldIncludeModule(env, JObj(fields), userInput) == Value(true)
    ensures forall b :: Get(fields, "importance_func") == Some(JBool(b)) ==>
      ShouldIncludeModule(env, JObj(fields), userInput) == Value(b)
    ensures forall name :: (Get(fields, "importance_func") == Some(JStr(name)) && name !in env.handlers
      && name != RelevanceCheckName) ==> ShouldIncludeModule(env, JObj(fields), userInput) == Value(false)
    ensures forall name, m :: (Get(fields, "importance_func") == Some(JStr(name)) && name in env.handlers
      && env.handlers[name].withInput(userInput) == Threw(m)) ==> ShouldIncludeModule(env, JObj(fields), userInput) == Value(false)
    ensures Get(fields, "importance_func") == Some(JStr(RelevanceCheckName)) && RelevanceCheckName !in env.handlers ==>
      ShouldIncludeModule(env, JObj(fields), userInput) == Value(IsRelevantLongTermMemory(userInput))
    ensures "importance_func" in fields && !fields["importance_func"].JBool? && !fields["importance_func"].JStr? ==>
      ShouldIncludeModule(env, JObj(fields), userInput) == Value(false)
  {
  }

  // ----- variables -----

  /** The `str()` of what a call returned, or the report of its failure. */
  function CallText(c: Call): string
  {
    match c
    case Returned(_, text) => text
    case Threw(message) => "方法调用失败: " + message
  }

  /** The `short_term_history_content` variable. */
  function ShortTermContent(memory: Option<MemoryView>): string
  {
    match memory
    case None => NoMemoryModule
    case Some(m) =>
      match m.shortTerm
      case Raised => RetrievalFailed
      case Value(items) => if items == [] then NoShortTermHistory else Join(LastN(items, ShortTermWindow), "\n")
  }

  function HitLine(h: LongTermHit): string
  {
    "- " + h.text + " (相关度: " + h.score + ")"
  }

  function HitLines(hits: seq<LongTermHit>): (lines: seq<string>)
    ensures |lines| == |hits| && forall i :: 0 <= i < |hits| ==> lines[i] == HitLine(hits[i])
  {
    seq(|hits|, i requires 0 <= i < |hits| => HitLine(hits[i]))
  }

  /** The `long_term_memory_content` variable. */
  function LongTermContent(memory: Option<MemoryView>, userInput: string): string
  {
    if memory.Some? && userInput != "" then
      match memory.value.longTerm(userInput)
      case Raised => RetrievalFailed
      case Value(hits) => if hits == [] then NoLongTermMemory else Join(HitLines(hits), "\n")
    else NoLongTermMemory
  }

  /** `get_variable_value` for a variable name. */
  function VariableValue(env: Env, name: string, userInput: string): string
  {
    if name == "current_user_input" then userInput
    else if name == "short_term_history_content" then ShortTermContent(env.memory)
    else if name == "long_term_memory_content" then LongTermContent(env.memory, userInput)
    else if name in env.handlers then
      CallText(if StartsWith(name, "is_") then env.handlers[name].withInput(userInput) else env.handlers[name].withoutInput)
    else if name == RelevanceCheckName then (if IsRelevantLongTermMemory(userInput) then "True" else "False")
    else "未知变量: " + name
  }

  /** What the variables stand for: the input itself; the placeholder texts when no memory module
      is set, when a retrieval raises, or when it finds nothing; at most the five most recent
      short-term items, oldest of them first; one line per long-term result, in order; and a
      report naming the variable when nothing answers to its name. */
  lemma VariableValueSpec(env: Env, name: string, userInput: string)
    ensures name == "current_user_input" ==> VariableValue(env, name, userInput) == userInput
    ensures name == "short_term_history_content" && env.memory.None? ==> VariableValue(env, name, userInput) == NoMemoryModule
    ensures name == "short_term_history_content" && env.memory.Some? && env.memory.value.shortTerm.Raised? ==>
      VariableValue(env, name, userInput) == RetrievalFailed
    ensures name == "short_term_history_content" && env.memory.Some? && env.memory.value.shortTerm.Value? ==>
      var items := env.memory.value.shortTerm.value;
      VariableValue(env, name, userInput) ==
        if items == [] then NoShortTermHistory else Join(items[|items| - Min(ShortTermWindow, |items|)..], "\n")
    ensures name == "long_term_memory_content" && (env.memory.None? || userInput == "") ==>
      VariableValue(env, name, userInput) == NoLongTermMemory
    ensures name == "long_term_memory_content" && env.memory.Some? && userInput != "" ==>
      match env.memory.value.longTerm(userInput)
      case Raised => VariableValue(env, name, userInput) == RetrievalFailed
      case Value(hits) =>
        && (hits == [] ==> VariableValue(env, name, userInput) == NoLongTermMemory)
        && (hits != [] ==> VariableValue(env, name, userInput) == Join(HitLines(hits), "\n"))
    ensures (name !in {"current_user_input", "short_term_history_content", "long_term_memory_content", RelevanceCheckName}
      && name !in env.handlers) ==> VariableValue(env, name, userInput) == "未知变量: " + name
  {
  }

  // ----- building the prompt -----

  /** Run two steps one after the other, keeping what both produce; the first failure stops. */
  function Then(a: Outcome<seq<string>>, b: Outcome<seq<string>>): Outcome<seq<string>>
  {
    if a.Value? && b.Value? then Value(a.value + b.value) else Raised
  }

  /** The elements a Python `for` loop visits: a list's items, a string's characters; an empty
      dict visits nothing. Iterating a non-empty dict visits its keys, which are strings and make
      the next `.get` raise, so the outcome is `Raised` at once; `None`, numbers and booleans
      are not iterable. */
  function Elements(v: JValue): Outcome<seq<JValue>>
  {
    match v
    case JArr(items) => Value(items)
    case JStr(s) => Value(seq(|s|, i requires 0 <= i < |s| => JStr([s[i]])))
    case JObj(fields) => if |fields| == 0 then Value([]) else Raised
    case _ => Raised
  }

  /** What one segment adds to its module's content: a text segment its string value, a
      variable segment the value of its variable, any other segment nothing. A segment that is
      not a dict raises (`.get` fails); so does a text value that is not a string (the later
      `"".join` fails) and a variable name that is not a string (`hasattr` fails). */
  function SegmentPiece(env: Env, seg: JValue, userInput: string): (r: Outcome<seq<string>>)
    ensures r.Value? ==> |r.value| <= 1
  {
    if !seg.JObj? then Raised
    else
      var kind := Get(seg.fields, "type");
      var value := Get(seg.fields, "value");
      if kind == Some(JStr("text")) then
        if value.Some? && value.value.JStr? then Value([value.value.str]) else Raised
      else if kind == Some(JStr("variable")) then
        if value.Some? && value.value.JStr? then Value([VariableValue(env, value.value.str, userInput)]) else Raised
      else Value([])
  }

  /** The pieces of a module's segments, in order. */
  function ModuleContent(env: Env, segs: seq<JValue>, userInput: string): (r: Outcome<seq<string>>)
    ensures r.Value? ==> |r.value| <= |segs|
  {
    if segs == [] then Value([])
    else Then(ModuleContent(env, segs[..|segs| - 1], userInput), SegmentPiece(env, segs[|segs| - 1], userInput))
  }

  /** A module's segments: `module.get("segments", [])`, iterated. */
  function ModuleSegments(fields: map<string, JValue>): Outcome<seq<JValue>>
  {
    if "segments" in fields then Elements(fields["segments"]) else Value([])
  }

  /** What one module adds to the prompt: nothing when it is excluded or yields no piece,
      otherwise the concatenation of its pieces. */
  function ModulePart(env: Env, entry: JValue, userInput: string): (r: Outcome<seq<string>>)
    ensures r.Value? ==> |r.value| <= 1
    ensures ShouldIncludeModule(env, entry, userInput) == Value(false) ==> r == Value([])
    ensures (ShouldIncludeModule(env, entry, userInput) == Value(true) && entry.JObj? &&
             ModuleSegments(entry.fields).Value? &&
             ModuleContent(env, ModuleSegments(entry.fields).value, userInput) == Value([]))
            ==> r == Value([])
  {
    match ShouldIncludeModule(env, entry, userInput)
    case Raised => Raised
    case Value(included) =>
      if !included then Value([])
      else
        match ModuleSegments(entry.fields)
        case Raised => Raised
        case Value(segs) =>
          match ModuleContent(env, segs, userInput)
          case Raised => Raised
          case Value(pieces) => Value(if pieces == [] then [] else [Join(pieces, "")])
  }

  /** The parts of the prompt, one per module that contributes, in template order. */
  function PromptParts(env: Env, modules: seq<JValue>, userInput: string): (r: Outcome<seq<string>>)
    ensures r.Value? ==> |r.value| <= |modules|
  {
    if modules == [] then Value([])
    else Then(PromptParts(env, modules[..|modules| - 1], userInput), ModulePart(env, modules[|modules| - 1], userInput))
  }

  /** `build_prompt`: the contributing parts of the template's modules, separated by blank lines. */
  function BuildPromptSpec(env: Env, template: JValue, userInput: string): Outcome<string>
  {
    match Elements(template)
    case Raised => Raised
    case Value(modules) =>
      match PromptParts(env, modules, userInput)
      case Raised => Raised
      case Value(parts) => Value(Join(parts, PartSeparator))
  }

  lemma ThenAssoc(a: Outcome<seq<string>>, b: Outcome<seq<string>>, c: Outcome<seq<string>>)
    ensures Then(Then(a, b), c) == Then(a, Then(b, c))
  {
    if a.Value? && b.Value? && c.Value? {
      assert (a.value + b.value) + c.value == a.value + (b.value + c.value);
    }
  }

  /** The template's modules are processed in order: the parts of `a + b` are those of `a`
      followed by those of `b`, and a module that raises stops the whole prompt. */
  lemma {:induction false} PromptPartsAppend(env: Env, a: seq<JValue>, b: seq<JValue>, userInput: string)
    ensures PromptParts(env, a + b, userInput) == Then(PromptParts(env, a, userInput), PromptParts(env, b, userInput))
    decreases |b|
  {
    if b == [] {
      assert a + b == a;
      if PromptParts(env, a, userInput).Value? {
        assert PromptParts(env, a, userInput).value + [] == PromptParts(env, a, userInput).value;
      }
    } else {
      var b' := b[..|b| - 1];
      assert (a + b)[..|a + b| - 1] == a + b';
      assert (a + b)[|a + b| - 1] == b[|b| - 1];
      PromptPartsAppend(env, a, b', userInput);
      ThenAssoc(PromptParts(env, a, userInput), PromptParts(env, b', userInput), ModulePart(env, b[|b| - 1], userInput));
    }
  }

  /** The segments of a module are processed in order, the first failure stopping the module. */
  lemma {:induction false} ModuleContentAppend(env: Env, a: seq<JValue>, b: seq<JValue>, userInput: string)
    ensures ModuleContent(env, a + b, userInput) == Then(ModuleContent(env, a, userInput), ModuleContent(env, b, userInput))
    decreases |b|
  {
    if b == [] {
      assert a + b == a;
      if ModuleContent(env, a, userInput).Value? {
        assert ModuleContent(env, a, userInput).value + [] == ModuleContent(env, a, userInput).value;
      }
    } else {
      var b' := b[..|b| - 1];
      assert (a + b)[..|a + b| - 1] == a + b';
      assert (a + b)[|a + b| - 1] == b[|b| - 1];
      ModuleContentAppend(env, a, b', userInput);
      ThenAssoc(ModuleContent(env, a, userInput), ModuleContent(env, b', userInput), SegmentPiece(env, b[|b| - 1], userInput));
    }
  }

  lemma ThenUnit(a: Outcome<seq<string>>)
    ensures Then(a, Value([])) == a && Then(Value([]), a) == a
  {
    if a.Value? {
      assert a.value + [] == a.value && [] + a.value == a.value;
    }
  }

  /** An excluded module leaves no trace: the prompt is the one built without it. */
  lemma ExcludedModuleIsInvisible(env: Env, a: seq<JValue>, m: JValue, b: seq<JValue>, userInput: string)
    requires ShouldIncludeModule(env, m, userInput) == Value(false)
    ensures BuildPromptSpec(env, JArr(a + [m] + b), userInput) == BuildPromptSpec(env, JArr(a + b), userInput)
  {
    PromptPartsAppend(env, a + [m], b, userInput);
    PromptPartsAppend(env, a, [m], userInput);
    PromptPartsAppend(env, a, b, userInput);
    assert [m][..0] == [];
    ThenUnit(PromptParts(env, a, userInput));
  }

  /** A segment whose type is neither "text" nor "variable" is skipped: the module's content is
      the one it has without that segment. */
  lemma UnknownSegmentIsSkipped(env: Env, a: seq<JValue>, seg: JValue, b: seq<JValue>, userInput: string)
    requires seg.JObj?
    requires Get(seg.fields, "type") != Some(JStr("text")) && Get(seg.fields, "type") != Some(JStr("variable"))
    ensures ModuleContent(env, a + [seg] + b, userInput) == ModuleContent(env, a + b, userInput)
  {
    ModuleContentAppend(env, a + [seg], b, userInput);
    ModuleContentAppend(env, a, [seg], userInput);
    ModuleContentAppend(env, a, b, userInput);
    assert [seg][..0] == [];
    ThenUnit(ModuleContent(env, a, userInput));
  }

  // ----- the default configuration -----

  const SystemPromptText := "你是一个友好的AI助手，请根据上下文提供有用的回答。"
  const ShortTermHeading := "最近的对话历史：\n"
  const LongTermHeading := "相关的长期记忆：\n"
  const UserInputHeading := "用户输入：\n"

  function TextSegment(value: string): JValue
  {
    JObj(map["type" := JStr("text"), "value" := JStr(value)])
  }

  function VariableSegment(name: string): JValue
  {
    JObj(map["type" := JStr("variable"), "value" := JStr(name)])
  }

  function ModuleConfig(name: string, segments: seq<JValue>, importance: JValue): JValue
  {
    JObj(map["module_name" := JStr(name), "segments" := JArr(segments), "importance_func" := importance])
  }

  /** The four modules of `load_default_config`. */
  function DefaultTemplate(): seq<JValue>
  {
    [ ModuleConfig("system_prompt", [TextSegment(SystemPromptText)], JBool(true)),
      ModuleConfig("short_term_memory", [TextSegment(ShortTermHeading), VariableSegment("short_term_history_content")], JBool(true)),
      ModuleConfig("long_term_memory", [TextSegment(LongTermHeading), VariableSegment("long_term_memory_content")], JStr(RelevanceCheckName)),
      ModuleConfig("user_input", [TextSegment(UserInputHeading), VariableSegment("current_user_input")], JBool(true)) ]
  }

  function DefaultConfig(): map<string, JValue>
  {
    map["context_template" := JArr(DefaultTemplate())]
  }

  // ----- validation -----

  /** `validate_config`'s verdict and its error messages, in the order found. */
  datatype Validation = Validation(valid: bool, errors: seq<string>)

  const EmptyConfig := "配置为空"
  const MissingTemplate := "缺少 'context_template' 字段"
  const TemplateNotList := "'context_template' 必须是列表"

  /** The prefix of every message about module `i`. */
  function ModuleLabel(i: nat): string
  {
    "模块 " + NatToString(i)
  }

  function SegmentLabel(i: nat, j: nat): string
  {
    ModuleLabel(i) + " 的段 " + NatToString(j)
  }

  /** A segment is a dict with a `type` and a `value`, its type being "text" or "variable". */
  predicate WellFormedSegment(seg: JValue)
  {
    && seg.JObj? && "type" in seg.fields && "value" in seg.fields
    && (seg.fields["type"] == JStr("text") || seg.fields["type"] == JStr("variable"))
  }

  /** A module is a dict with a `module_name` and a list of well-formed `segments`. */
  predicate WellFormedModule(m: JValue)
  {
    && m.JObj? && "module_name" in m.fields && "segments" in m.fields && m.fields["segments"].JArr?
    && forall j :: 0 <= j < |m.fields["segments"].items| ==> WellFormedSegment(m.fields["segments"].items[j])
  }

  /** A configuration holds a `context_template` list of well-formed modules. */
  predicate WellFormedConfig(config: Option<map<string, JValue>>)
  {
    && config.Some? && "context_template" in config.value && config.value["context_template"].JArr?
    && AllModulesWellFormed(config.value["context_template"].items)
  }

  /** The error segment `j` of module `i` earns: only the first check it fails is reported. */
  function SegmentError(i: nat, j: nat, seg: JValue): (r: seq<string>)
    ensures |r| <= 1
    ensures r == [] <==> WellFormedSegment(seg)
    ensures forall e :: e in r ==> SegmentLabel(i, j) <= e
  {
    if !seg.JObj? then [SegmentLabel(i, j) + " 必须是字典"]
    else if "type" !in seg.fields then [SegmentLabel(i, j) + " 缺少 'type' 字段"]
    else if "value" !in seg.fields then [SegmentLabel(i, j) + " 缺少 'value' 字段"]
    else if seg.fields["type"] != JStr("text") && seg.fields["type"] != JStr("variable") then
      [SegmentLabel(i, j) + " 的 'type' 必须是 'text' 或 'variable'"]
    else []
  }

  /** The errors of the segments of module `i`, segment by segment. */
  function SegmentErrors(i: nat, segs: seq<JValue>): (r: seq<string>)
    ensures |r| <= |segs|
    ensures forall e :: e in r ==> ModuleLabel(i) <= e
  {
    if segs == [] then []
    else
      var last := SegmentError(i, |segs| - 1, segs[|segs| - 1]);
      assert ModuleLabel(i) <= SegmentLabel(i, |segs| - 1);
      SegmentErrors(i, segs[..|segs| - 1]) + last
  }

  /** The errors of the first `j + 1` segments are those of the first `j`, then segment `j`'s. */
  lemma SegmentErrorsSnoc(i: nat, segs: seq<JValue>, j: nat)
    requires j < |segs|
    ensures SegmentErrors(i, segs[..j + 1]) == SegmentErrors(i, segs[..j]) + SegmentError(i, j, segs[j])
  {
    assert segs[..j + 1][..j] == segs[..j];
  }

  /** The errors of module `i`: a module that is not a dict earns one error and no more checks. */
  function ModuleErrors(i: nat, m: JValue): (r: seq<string>)
    ensures !m.JObj? ==> r == [ModuleLabel(i) + " 必须是字典"]
    ensures forall e :: e in r ==> ModuleLabel(i) <= e
  {
    if !m.JObj? then [ModuleLabel(i) + " 必须是字典"]
    else NameErrors(i, m.fields) + SegmentsFieldErrors(i, m.fields)
  }

  /** The error for a module without a name. */
  function NameErrors(i: nat, fields: map<string, JValue>): (r: seq<string>)
    ensures r == [] <==> "module_name" in fields
    ensures forall e :: e in r ==> ModuleLabel(i) <= e
  {
    if "module_name" !in fields then [ModuleLabel(i) + " 缺少 'module_name' 字段"] else []
  }

  /** The errors for a module's segments: missing, not a list, or the segments' own errors. */
  function SegmentsFieldErrors(i: nat, fields: map<string, JValue>): (r: seq<string>)
    ensures forall e :: e in r ==> ModuleLabel(i) <= e
  {
    if "segments" !in fields then [ModuleLabel(i) + " 缺少 'segments' 字段"]
    else if !fields["segments"].JArr? then [ModuleLabel(i) + " 的 'segments' 必须是列表"]
    else SegmentErrors(i, fields["segments"].items)
  }

  /** The errors of a template's modules, module by module. */
  function TemplateErrors(modules: seq<JValue>): seq<string>
  {
    if modules == [] then []
    else TemplateErrors(modules[..|modules| - 1]) + ModuleErrors(|modules| - 1, modules[|modules| - 1])
  }

  /** `validate_config`: a missing or empty configuration, a missing template and a template
      that is not a list each stop validation with one error; otherwise every module is checked
      and the configuration is valid when no error was found. */
  function ValidateConfigSpec(config: Option<map<string, JValue>>): Validation
  {
    if config.None? || |config.value| == 0 then Validation(false, [EmptyConfig])
    else if "context_template" !in config.value then Validation(false, [MissingTemplate])
    else if !config.value["context_template"].JArr? then Validation(false, [TemplateNotList])
    else
      var errors := TemplateErrors(config.value["context_template"].items);
      Validation(|errors| == 0, errors)
  }

  lemma {:induction false} SegmentErrorsEmptyIff(i: nat, segs: seq<JValue>)
    ensures SegmentErrors(i, segs) == [] <==> forall j :: 0 <= j < |segs| ==> WellFormedSegment(segs[j])
    decreases |segs|
  {
    if segs != [] {
      var init := segs[..|segs| - 1];
      SegmentErrorsEmptyIff(i, init);
      assert forall j :: 0 <= j < |init| ==> init[j] == segs[j];
    }
  }

  lemma ModuleErrorsEmptyIff(i: nat, m: JValue)
    ensures ModuleErrors(i, m) == [] <==> WellFormedModule(m)
  {
    if m.JObj? && "segments" in m.fields && m.fields["segments"].JArr? {
      SegmentErrorsEmptyIff(i, m.fields["segments"].items);
    }
  }

  lemma {:induction false} TemplateErrorsEmptyIff(modules: seq<JValue>)
    ensures TemplateErrors(modules) == [] <==> AllModulesWellFormed(modules)
    decreases |modules|
  {
    if modules != [] {
      var init := modules[..|modules| - 1];
      TemplateErrorsEmptyIff(init);
      ModuleErrorsEmptyIff(|modules| - 1, modules[|modules| - 1]);
      WellFormedModulesSnoc(modules);
      assert TemplateErrors(modules) == TemplateErrors(init) + ModuleErrors(|modules| - 1, modules[|modules| - 1]);
    }
  }

  predicate AllModulesWellFormed(modules: seq<JValue>)
  {
    forall i :: 0 <= i < |modules| ==> WellFormedModule(modules[i])
  }

  lemma WellFormedModulesSnoc(modules: seq<JValue>)
    requires modules != []
    ensures AllModulesWellFormed(modules) <==>
      AllModulesWellFormed(modules[..|modules| - 1]) && WellFormedModule(modules[|modules| - 1])
  {
    var init := modules[..|modules| - 1];
    assert forall i :: 0 <= i < |init| ==> init[i] == modules[i];
  }

  /** A configuration passes validation exactly when it is well formed, and then exactly when no
      error is reported. */
  lemma ValidateConfigIffWellFormed(config: Option<map<string, JValue>>)
    ensures ValidateConfigSpec(config).valid <==> WellFormedConfig(config)
    ensures ValidateConfigSpec(config).valid <==> ValidateConfigSpec(config).errors == []
  {
    if config.Some? && "context_template" in config.value && config.value["context_template"].JArr? {
      TemplateErrorsEmptyIff(config.value["context_template"].items);
    }
  }

  lemma ModuleConfigWellFormed(name: string, segments: seq<JValue>, importance: JValue)
    requires forall j :: 0 <= j < |segments| ==> WellFormedSegment(segments[j])
    ensures WellFormedModule(ModuleConfig(name, segments, importance))
  {
  }

  /** The default configuration is valid. */
  lemma DefaultConfigIsValid()
    ensures ValidateConfigSpec(Some(DefaultConfig())) == Validation(true, [])
  {
    var t := DefaultTemplate();
    ModuleConfigWellFormed("system_prompt", [TextSegment(SystemPromptText)], JBool(true));
    ModuleConfigWellFormed("short_term_memory", [TextSegment(ShortTermHeading), VariableSegment("short_term_history_content")], JBool(true));
    ModuleConfigWellFormed("long_term_memory", [TextSegment(LongTermHeading), VariableSegment("long_term_memory_content")], JStr(RelevanceCheckName));
    ModuleConfigWellFormed("user_input", [TextSegment(UserInputHeading), VariableSegment("current_user_input")], JBool(true));
    assert forall i :: 0 <= i < |t| ==> WellFormedModule(t[i]);
    assert WellFormedConfig(Some(DefaultConfig()));
    ValidateConfigIffWellFormed(Some(DefaultConfig()));
  }

  /** A module without `segments` earns exactly one error naming it. */
  lemma MissingSegmentsIsReported()
    ensures ValidateConfigSpec(Some(map["context_template" := JArr([
      JObj(map["module_name" := JStr("invalid_module"), "importance_func" := JBool(true)])])]))
      == Validation(false, ["模块 0 缺少 'segments' 字段"])
  {
    var m := JObj(map["module_name" := JStr("invalid_module"), "importance_func" := JBool(true)]);
    assert [m][..0] == [];
    assert NatToString(0) == "0";
    assert "module_name" in m.fields && "segments" !in m.fields;
    assert ModuleLabel(0) == "模块 0";
    assert ModuleLabel(0) + " 缺少 'segments' 字段" == "模块 0 缺少 'segments' 字段";
    assert ModuleErrors(0, m) == ["模块 0 缺少 'segments' 字段"];
    assert TemplateErrors([m]) == ModuleErrors(0, m);
  }

  // ----- prompts of particular templates -----

  lemma TextSegmentPiece(env: Env, value: string, userInput: string)
    ensures SegmentPiece(env, TextSegment(value), userInput) == Value([value])
  {
    assert Get(TextSegment(value).fields, "type") == Some(JStr("text"));
  }

  lemma VariableSegmentPiece(env: Env, name: string, userInput: string)
    ensures SegmentPiece(env, VariableSegment(name), userInput) == Value([VariableValue(env, name, userInput)])
  {
    assert Get(VariableSegment(name).fields, "type") == Some(JStr("variable"));
  }

  /** The importance flag of a configured module decides its inclusion. */
  lemma ConfiguredInclusion(env: Env, name: string, segs: seq<JValue>, importance: JValue, userInput: string)
    ensures importance.JBool? ==>
      ShouldIncludeModule(env, ModuleConfig(name, segs, importance), userInput) == Value(importance.boolean)
    ensures importance.JStr? ==>
      ShouldIncludeModule(env, ModuleConfig(name, segs, importance), userInput) == Value(ImportanceByName(env, importance.str, userInput))
  {
    assert Get(ModuleConfig(name, segs, importance).fields, "importance_func") == Some(importance);
  }

  /** An included configured module whose segments yield `pieces` contributes their concatenation. */
  lemma IncludedModulePart(env: Env, name: string, segs: seq<JValue>, importance: JValue, pieces: seq<string>,
                           userInput: string)
    requires ShouldIncludeModule(env, ModuleConfig(name, segs, importance), userInput) == Value(true)
    requires ModuleContent(env, segs, userInput) == Value(pieces) && pieces != []
    ensures ModulePart(env, ModuleConfig(name, segs, importance), userInput) == Value([Join(pieces, "")])
  {
    assert ModuleSegments(ModuleConfig(name, segs, importance).fields) == Value(segs);
  }

  /** A configured module made of one text contributes that text when it is included, and
      nothing otherwise. */
  lemma TextModulePart(env: Env, name: string, text: string, importance: JValue, userInput: string)
    requires ShouldIncludeModule(env, ModuleConfig(name, [TextSegment(text)], importance), userInput).Value?
    ensures ModulePart(env, ModuleConfig(name, [TextSegment(text)], importance), userInput) ==
      if ShouldIncludeModule(env, ModuleConfig(name, [TextSegment(text)], importance), userInput).value
      then Value([text]) else Value([])
  {
    var segs := [TextSegment(text)];
    TextSegmentPiece(env, text, userInput);
    assert segs[..0] == [] && [] + [text] == [text];
    JoinSmall(text, text, text, "");
    if ShouldIncludeModule(env, ModuleConfig(name, segs, importance), userInput).value {
      IncludedModulePart(env, name, segs, importance, [text], userInput);
    }
  }

  /** An included configured module made of a heading and a variable contributes the heading
      followed by the variable's value. */
  lemma HeadedModulePart(env: Env, name: string, heading: string, variable: string, importance: JValue, userInput: string)
    requires ShouldIncludeModule(env, ModuleConfig(name, [TextSegment(heading), VariableSegment(variable)], importance), userInput)
      == Value(true)
    ensures ModulePart(env, ModuleConfig(name, [TextSegment(heading), VariableSegment(variable)], importance), userInput)
      == Value([heading + VariableValue(env, variable, userInput)])
  {
    var segs := [TextSegment(heading), VariableSegment(variable)];
    var v := VariableValue(env, variable, userInput);
    TextSegmentPiece(env, heading, userInput);
    VariableSegmentPiece(env, variable, userInput);
    assert segs[..1] == [segs[0]] && [segs[0]][..0] == [];
    assert [] + [heading] == [heading] && [heading] + [v] == [heading, v];
    assert ModuleContent(env, [segs[0]], userInput) == Value([heading]);
    assert ModuleContent(env, segs, userInput) == Value([heading, v]);
    ConcatSmall(heading, v, v);
    IncludedModulePart(env, name, segs, importance, [heading, v], userInput);
  }

  /** An included configured module made of a text, a variable and a text contributes the
      variable's value between the two texts. */
  lemma WrappedModulePart(env: Env, name: string, before: string, variable: string, after: string, importance: JValue,
                          userInput: string)
    requires ShouldIncludeModule(env, ModuleConfig(name, [TextSegment(before), VariableSegment(variable), TextSegment(after)],
      importance), userInput) == Value(true)
    ensures ModulePart(env, ModuleConfig(name, [TextSegment(before), VariableSegment(variable), TextSegment(after)],
      importance), userInput) == Value([before + VariableValue(env, variable, userInput) + after])
  {
    var segs := [TextSegment(before), VariableSegment(variable), TextSegment(after)];
    var v := VariableValue(env, variable, userInput);
    TextSegmentPiece(env, before, userInput);
    VariableSegmentPiece(env, variable, userInput);
    TextSegmentPiece(env, after, userInput);
    assert segs[..2] == [segs[0], segs[1]] && [segs[0], segs[1]][..1] == [segs[0]] && [segs[0]][..0] == [];
    assert [] + [before] == [before] && [before] + [v] == [before, v] && [before, v] + [after] == [before, v, after];
    assert ModuleContent(env, [segs[0]], userInput) == Value([before]);
    assert ModuleContent(env, [segs[0], segs[1]], userInput) == Value([before, v]);
    assert ModuleContent(env, segs, userInput) == Value([before, v, after]);
    ConcatSmall(before, v, after);
    IncludedModulePart(env, name, segs, importance, [before, v, after], userInput);
  }

  lemma OnePart(env: Env, m0: JValue, userInput: string)
    requires ModulePart(env, m0, userInput).Value?
    ensures PromptParts(env, [m0], userInput) == ModulePart(env, m0, userInput)
  {
    assert [m0][..0] == [];
    assert [] + ModulePart(env, m0, userInput).value == ModulePart(env, m0, userInput).value;
  }

  lemma TwoParts(env: Env, m0: JValue, m1: JValue, userInput: string)
    requires ModulePart(env, m0, userInput).Value? && ModulePart(env, m1, userInput).Value?
    ensures PromptParts(env, [m0, m1], userInput)
      == Value(ModulePart(env, m0, userInput).value + ModulePart(env, m1, userInput).value)
  {
    assert [m0, m1][..1] == [m0];
    OnePart(env, m0, userInput);
  }

  lemma FourParts(env: Env, m0: JValue, m1: JValue, m2: JValue, m3: JValue, userInput: string)
    requires ModulePart(env, m0, userInput).Value? && ModulePart(env, m1, userInput).Value?
    requires ModulePart(env, m2, userInput).Value? && ModulePart(env, m3, userInput).Value?
    ensures PromptParts(env, [m0, m1, m2, m3], userInput) == Value(ModulePart(env, m0, userInput).value
      + ModulePart(env, m1, userInput).value + ModulePart(env, m2, userInput).value + ModulePart(env, m3, userInput).value)
  {
    assert [m0, m1, m2, m3][..3] == [m0, m1, m2] && [m0, m1, m2][..2] == [m0, m1];
    TwoParts(env, m0, m1, userInput);
  }

  /** A template of two one-text modules, the second always shown: the first text comes first
      exactly when its module is included. */
  lemma TwoTextModulesPrompt(env: Env, name0: string, text0: string, importance0: JValue,
                             name1: string, text1: string, importance1: JValue, userInput: string)
    requires ShouldIncludeModule(env, ModuleConfig(name0, [TextSegment(text0)], importance0), userInput).Value?
    requires ShouldIncludeModule(env, ModuleConfig(name1, [TextSegment(text1)], importance1), userInput) == Value(true)
    ensures BuildPromptSpec(env, JArr([ModuleConfig(name0, [TextSegment(text0)], importance0),
                                      ModuleConfig(name1, [TextSegment(text1)], importance1)]), userInput)
      == Value(if ShouldIncludeModule(env, ModuleConfig(name0, [TextSegment(text0)], importance0), userInput).value
               then text0 + PartSeparator + text1 else text1)
  {
    var m0 := ModuleConfig(name0, [TextSegment(text0)], importance0);
    var m1 := ModuleConfig(name1, [TextSegment(text1)], importance1);
    TextModulePart(env, name0, text0, importance0, userInput);
    TextModulePart(env, name1, text1, importance1, userInput);
    TwoParts(env, m0, m1, userInput);
    JoinSmall(text0, text1, text1, PartSeparator);
    assert [] + [text1] == [text1];
  }

  const QuestionBefore := "这是一个自定义的提示：\n"
  const QuestionAfter := "\n请回答上述问题。"

  /** A one-module template asking to answer the user's question. */
  function QuestionTemplate(): seq<JValue>
  {
    [ModuleConfig("custom_prompt", [TextSegment(QuestionBefore), VariableSegment("current_user_input"), TextSegment(QuestionAfter)],
      JBool(true))]
  }

  /** With the question template, the prompt is the input wrapped between the two texts,
      whatever the handlers and the memory module, and the template is valid. */
  lemma QuestionTemplatePrompt(env: Env, userInput: string)
    ensures BuildPromptSpec(env, JArr(QuestionTemplate()), userInput) == Value(QuestionBefore + userInput + QuestionAfter)
    ensures ValidateConfigSpec(Some(map["context_template" := JArr(QuestionTemplate())])).valid
  {
    var segs := [TextSegment(QuestionBefore), VariableSegment("current_user_input"), TextSegment(QuestionAfter)];
    ConfiguredInclusion(env, "custom_prompt", segs, JBool(true), userInput);
    WrappedModulePart(env, "custom_prompt", QuestionBefore, "current_user_input", QuestionAfter, JBool(true), userInput);
    OnePart(env, QuestionTemplate()[0], userInput);
    JoinSmall(QuestionBefore + userInput + QuestionAfter, "", "", PartSeparator);
    ModuleConfigWellFormed("custom_prompt", segs, JBool(true));
    ValidateConfigIffWellFormed(Some(map["context_template" := JArr(QuestionTemplate())]));
  }

  const CheckName := "custom_importance_check"
  const ConditionalText := "这是一个条件性模块，只在输入较长时显示。"
  const AlwaysText := "这个模块总是显示。"

  /** A module shown only when the custom check approves, followed by one always shown. */
  function ConditionalTemplate(): seq<JValue>
  {
    [ ModuleConfig("conditional_module", [TextSegment(ConditionalText)], JStr(CheckName)),
      ModuleConfig("always_show", [TextSegment(AlwaysText)], JBool(true)) ]
  }

  /** The custom check: the input is longer than ten characters. Called with no argument it
      raises, as a one-parameter Python function does. */
  function LengthCheck(): Handler
  {
    Handler((userInput: string) => BoolCall(|userInput| > 10),
      Threw("custom_importance_check() missing 1 required positional argument: 'user_input'"))
  }

  lemma LengthCheckDecides(env: Env, userInput: string)
    requires env.handlers == map[CheckName := LengthCheck()]
    ensures ImportanceByName(env, CheckName, userInput) == (|userInput| > 10)
  {
    var h := env.handlers[CheckName];
    assert h == LengthCheck();
    assert h.withInput(userInput) == BoolCall(|userInput| > 10);
  }

  /** With the custom check registered, the conditional module's text comes first exactly when
      the input is longer than ten characters, and the other module's text always follows. */
  lemma ConditionalPrompt(memory: Option<MemoryView>, userInput: string)
    ensures BuildPromptSpec(Env(map[CheckName := LengthCheck()], memory), JArr(ConditionalTemplate()), userInput)
      == Value(if |userInput| > 10 then ConditionalText + PartSeparator + AlwaysText else AlwaysText)
  {
    var env := Env(map[CheckName := LengthCheck()], memory);
    ConfiguredInclusion(env, "conditional_module", [TextSegment(ConditionalText)], JStr(CheckName), userInput);
    ConfiguredInclusion(env, "always_show", [TextSegment(AlwaysText)], JBool(true), userInput);
    LengthCheckDecides(env, userInput);
    TwoTextModulesPrompt(env, "conditional_module", ConditionalText, JStr(CheckName), "always_show", AlwaysText, JBool(true), userInput);
  }

  /** The two inputs of the custom-check example: the short one shows only the second module,
      the long one shows both, in template order. */
  lemma CustomImportancePrompt(memory: Option<MemoryView>)
    ensures BuildPromptSpec(Env(map[CheckName := LengthCheck()], memory), JArr(ConditionalTemplate()), "你好")
      == Value(AlwaysText)
    ensures BuildPromptSpec(Env(map[CheckName := LengthCheck()], memory), JArr(ConditionalTemplate()),
      "这是一个很长的用户输入，用来测试自定义重要性函数的功能") == Value(ConditionalText + "\n\n" + AlwaysText)
  {
    ConditionalPrompt(memory, "你好");
    ConditionalPrompt(memory, "这是一个很长的用户输入，用来测试自定义重要性函数的功能");
  }

  /** Without a memory module, the default long-term module shows its placeholder exactly when
      the built-in relevance check approves the input. */
  lemma LongTermModulePart(handlers: map<string, Handler>, userInput: string)
    requires RelevanceCheckName !in handlers
    ensures ModulePart(Env(handlers, None), DefaultTemplate()[2], userInput)
      == Value(if IsRelevantLongTermMemory(userInput) then [LongTermHeading + NoLongTermMemory] else [])
  {
    var env := Env(handlers, None);
    ConfiguredInclusion(env, "long_term_memory", [TextSegment(LongTermHeading), VariableSegment("long_term_memory_content")],
      JStr(RelevanceCheckName), userInput);
    if IsRelevantLongTermMemory(userInput) {
      HeadedModulePart(env, "long_term_memory", LongTermHeading, "long_term_memory_content", JStr(RelevanceCheckName), userInput);
    }
  }

  /** The parts of the default template without a memory module. */
  lemma DefaultParts(handlers: map<string, Handler>, userInput: string)
    requires RelevanceCheckName !in handlers
    ensures PromptParts(Env(handlers, None), DefaultTemplate(), userInput) == Value(
      [SystemPromptText, ShortTermHeading + NoMemoryModule]
      + (if IsRelevantLongTermMemory(userInput) then [LongTermHeading + NoLongTermMemory] else [])
      + [UserInputHeading + userInput])
  {
    var env := Env(handlers, None);
    var t := DefaultTemplate();
    ConfiguredInclusion(env, "system_prompt", [TextSegment(SystemPromptText)], JBool(true), userInput);
    TextModulePart(env, "system_prompt", SystemPromptText, JBool(true), userInput);
    ConfiguredInclusion(env, "short_term_memory", [TextSegment(ShortTermHeading), VariableSegment("short_term_history_content")],
      JBool(true), userInput);
    HeadedModulePart(env, "short_term_memory", ShortTermHeading, "short_term_history_content", JBool(true), userInput);
    LongTermModulePart(handlers, userInput);
    ConfiguredInclusion(env, "user_input", [TextSegment(UserInputHeading), VariableSegment("current_user_input")],
      JBool(true), userInput);
    HeadedModulePart(env, "user_input", UserInputHeading, "current_user_input", JBool(true), userInput);
    FourParts(env, t[0], t[1], t[2], t[3], userInput);
    assert [SystemPromptText] + [ShortTermHeading + NoMemoryModule] == [SystemPromptText, ShortTermHeading + NoMemoryModule];
  }

  /** Without a memory module and with the built-in relevance check, the default template gives
      the system prompt, the short-term heading with the missing-module note, the long-term
      heading with its placeholder only when the input mentions a keyword, and the input. */
  lemma DefaultPromptWithoutMemory(handlers: map<string, Handler>, userInput: string)
    requires RelevanceCheckName !in handlers
    ensures BuildPromptSpec(Env(handlers, None), JArr(DefaultTemplate()), userInput) == Value(Join(
      [SystemPromptText, ShortTermHeading + NoMemoryModule]
      + (if IsRelevantLongTermMemory(userInput) then [LongTermHeading + NoLongTermMemory] else [])
      + [UserInputHeading + userInput], PartSeparator))
  {
    DefaultParts(handlers, userInput);
  }

  // ----- the input module -----

  class InputModule {
    /** `self.config`: `None` or the configuration dict. */
    var config: Option<map<string, JValue>>
    /** `self.context_template`. */
    var contextTemplate: JValue
    /** `self.memory_management_module`. */
    var memory: Option<MemoryView>
    /** `self.base_model_interface`. */
    var modelInterface: Option<ModelInterface>
    /** Callable attributes set on the instance, by name. */
    var handlers: map<string, Handler>
    /** Every prompt handed to the model interface's `send_prompt`, oldest first. */
    var sentPrompts: seq<string>

    function Environment(): Env
      reads this
    {
      Env(handlers, memory)
    }

    /** `InputModule()` (or a configuration path that does not exist): the default configuration. */
    constructor ()
      ensures config == Some(DefaultConfig()) && contextTemplate == JArr(DefaultTemplate())
      ensures memory.None? && modelInterface.None? && handlers == map[] && sentPrompts == []
    {
      config := Some(DefaultConfig());
      contextTemplate := JArr(DefaultTemplate());
      memory := None;
      modelInterface := None;
      handlers := map[];
      sentPrompts := [];
    }

    /** `InputModule(config_path)` for an existing file whose parsed contents are `file`
        (`Raised` when it cannot be read or is not valid JSON). A file that fails to load
        leaves the module without a configuration; there is no fallback to the default. */
    constructor FromFile(file: Outcome<map<string, JValue>>)
      ensures file.Raised? ==> config.None? && contextTemplate == JArr([])
      ensures file.Value? ==> config == Some(file.value)
      ensures file.Value? && "context_template" in file.value ==> contextTemplate == file.value["context_template"]
      ensures file.Value? && "context_template" !in file.value ==> contextTemplate == JArr([])
      ensures memory.None? && modelInterface.None? && handlers == map[] && sentPrompts == []
    {
      config := None;
      contextTemplate := JArr([]);
      memory := None;
      modelInterface := None;
      handlers := map[];
      sentPrompts := [];
      new;
      var _ := LoadConfig(file);
    }

    /** `load_config` with the file's parsed contents: a file that cannot be read changes
        nothing; otherwise the configuration is replaced, and the template too when the file
        has one. */
    method LoadConfig(file: Outcome<map<string, JValue>>) returns (ok: bool)
      modifies this`config, this`contextTemplate
      ensures ok <==> file.Value? && "context_template" in file.value
      ensures file.Raised? ==> config == old(config) && contextTemplate == old(contextTemplate)
      ensures file.Value? ==> config == Some(file.value)
      ensures ok ==> contextTemplate == file.value["context_template"]
      ensures !ok ==> contextTemplate == old(contextTemplate)
    {
      if file.Raised? {
        return false;
      }
      config := Some(file.value);
      if "context_template" in file.value {
        contextTemplate := file.value["context_template"];
        return true;
      }
      return false;
    }

    /** `load_default_config`. */
    method LoadDefaultConfig()
      modifies this`config, this`contextTemplate
      ensures config == Some(DefaultConfig()) && contextTemplate == JArr(DefaultTemplate())
    {
      config := Some(DefaultConfig());
      contextTemplate := config.value["context_template"];
    }

    /** `set_memory_management_module`. */
    method SetMemoryManagementModule(m: Option<MemoryView>)
      modifies this`memory
      ensures memory == m
    {
      memory := m;
    }

    /** `set_base_model_interface`. */
    method SetBaseModelInterface(i: Option<ModelInterface>)
      modifies this`modelInterface
      ensures modelInterface == i
    {
      modelInterface := i;
    }

    /** Setting a callable attribute on the instance, as the custom importance check is set. */
    method RegisterHandler(name: string, h: Handler)
      modifies this`handlers
      ensures handlers == old(handlers)[name := h]
    {
      handlers := handlers[name := h];
    }

    /** The module loop of `build_prompt` for one module: its importance, then its segments. */
    method AssembleModule(env: Env, m: JValue, userInput: string) returns (r: Outcome<seq<string>>)
      ensures r == ModulePart(env, m, userInput)
    {
      var included := ShouldIncludeModule(env, m, userInput);
      if included.Raised? {
        return Raised;
      }
      if !included.value {
        return Value([]);
      }
      var segs: seq<JValue>;
      match ModuleSegments(m.fields) {
        case Raised => return Raised;
        case Value(ss) => segs := ss;
      }
      var pieces: seq<string> := [];
      var j := 0;
      while j < |segs|
        invariant 0 <= j <= |segs|
        invariant ModuleContent(env, segs[..j], userInput) == Value(pieces)
      {
        var piece := SegmentPiece(env, segs[j], userInput);
        assert segs[..j + 1][..j] == segs[..j];
        if piece.Raised? {
          var done, rest := segs[..j + 1], segs[j + 1..];
          assert done + rest == segs;
          assert ModuleContent(env, done, userInput).Raised?;
          ModuleContentAppend(env, done, rest, userInput);
          return Raised;
        }
        pieces := pieces + piece.value;
        j := j + 1;
      }
      assert segs[..j] == segs;
      r := Value(if pieces == [] then [] else [Join(pieces, "")]);
    }

    /** `build_prompt`. */
    method BuildPrompt(userInput: string) returns (r: Outcome<string>)
      ensures r == BuildPromptSpec(Environment(), contextTemplate, userInput)
    {
      var env := Env(handlers, memory);
      var modules: seq<JValue>;
      match Elements(contextTemplate) {
        case Raised => return Raised;
        case Value(ms) => modules := ms;
      }
      var parts: seq<string> := [];
      var i := 0;
      while i < |modules|
        invariant 0 <= i <= |modules|
        invariant PromptParts(env, modules[..i], userInput) == Value(parts)
      {
        var part := AssembleModule(env, modules[i], userInput);
        assert modules[..i + 1][..i] == modules[..i];
        if part.Raised? {
          var done, rest := modules[..i + 1], modules[i + 1..];
          assert done + rest == modules;
          assert PromptParts(env, done, userInput).Raised?;
          PromptPartsAppend(env, done, rest, userInput);
          return Raised;
        }
        parts := parts + part.value;
        i := i + 1;
      }
      assert modules[..i] == modules;
      r := Value(Join(parts, PartSeparator));
    }

    /** `process_user_input`: an input of whitespace only gives the empty prompt and sends
        nothing; otherwise the prompt is built and, when the model interface has `send_prompt`,
        handed to it. */
    method ProcessUserInput(userInput: string) returns (r: Outcome<string>)
      modifies this`sentPrompts
      ensures IsBlank(userInput) ==> r == Value("")
      ensures !IsBlank(userInput) ==> r == BuildPromptSpec(Environment(), contextTemplate, userInput)
      ensures sentPrompts == old(sentPrompts) +
        (if !IsBlank(userInput) && r.Value? && modelInterface == Some(ModelInterface(true)) then [r.value] else [])
    {
      StripEmptyIffBlank(userInput);
      if Strip(userInput) == "" {
        return Value("");
      }
      r := BuildPrompt(userInput);
      if r.Value? && modelInterface.Some? && modelInterface.value.hasSendPrompt {
        sentPrompts := sentPrompts + [r.value];
      }
    }

    /** `update_config`: a configuration with a template replaces configuration and template;
        any other is refused and changes nothing. */
    method UpdateConfig(newConfig: map<string, JValue>) returns (ok: bool)
      modifies this`config, this`contextTemplate
      ensures ok <==> "context_template" in newConfig
      ensures ok ==> config == Some(newConfig) && contextTemplate == newConfig["context_template"]
      ensures !ok ==> config == old(config) && contextTemplate == old(contextTemplate)
    {
      if "context_template" in newConfig {
        config := Some(newConfig);
        contextTemplate := newConfig["context_template"];
        return true;
      }
      return false;
    }

    /** `get_config`: a copy of the configuration; without one, `.copy()` raises. */
    function GetConfig(): (r: Outcome<map<string, JValue>>)
      reads this
      ensures r.Value? <==> config.Some?
      ensures r.Value? ==> r.value == config.value
    {
      if config.Some? then Value(config.value) else Raised
    }

    /** `validate_config`. */
    method ValidateConfig() returns (valid: bool, errors: seq<string>)
      ensures Validation(valid, errors) == ValidateConfigSpec(config)
      ensures valid <==> WellFormedConfig(config)
      ensures valid <==> errors == []
    {
      var cfg := config;
      ValidateConfigIffWellFormed(cfg);
      errors := [];
      if cfg.None? || |cfg.value| == 0 {
        errors := errors + [EmptyConfig];
        return false, errors;
      }
      if "context_template" !in cfg.value {
        errors := errors + [MissingTemplate];
        return false, errors;
      }
      var template := cfg.value["context_template"];
      if !template.JArr? {
        errors := errors + [TemplateNotList];
        return false, errors;
      }
      errors := CheckTemplate(template.items);
      valid := |errors| == 0;
    }

    /** The module loop of `validate_config`. */
    static method CheckTemplate(modules: seq<JValue>) returns (errors: seq<string>)
      ensures errors == TemplateErrors(modules)
    {
      errors := [];
      var i := 0;
      while i < |modules|
        invariant 0 <= i <= |modules|
        invariant errors == TemplateErrors(modules[..i])
      {
        assert modules[..i + 1][..i] == modules[..i];
        errors := CheckModule(i, modules[i], errors);
        i := i + 1;
      }
      assert modules[..i] == modules;
    }

    /** The body of `validate_config`'s module loop for module `i`. */
    static method CheckModule(i: nat, m: JValue, errors0: seq<string>) returns (errors: seq<string>)
      ensures errors == errors0 + ModuleErrors(i, m)
    {
      errors := errors0;
      if !m.JObj? {
        errors := errors + [ModuleLabel(i) + " 必须是字典"];
        return;
      }
      var fields := m.fields;
      var nameError: seq<string> := [];
      if "module_name" !in fields {
        nameError := [ModuleLabel(i) + " 缺少 'module_name' 字段"];
      }
      assert nameError == NameErrors(i, fields);
      var segmentsErrors: seq<string>;
      if "segments" !in fields {
        segmentsErrors := [ModuleLabel(i) + " 缺少 'segments' 字段"];
      } else if !fields["segments"].JArr? {
        segmentsErrors := [ModuleLabel(i) + " 的 'segments' 必须是列表"];
      } else {
        segmentsErrors := CheckSegments(i, fields["segments"].items, []);
        assert [] + SegmentErrors(i, fields["segments"].items) == SegmentErrors(i, fields["segments"].items);
      }
      assert segmentsErrors == SegmentsFieldErrors(i, fields);
      errors := errors + (nameError + segmentsErrors);
    }

    /** The checks `validate_config` makes on segment `j` of module `i`. */
    static method CheckSegment(i: nat, j: nat, seg: JValue) returns (error: seq<string>)
      ensures error == SegmentError(i, j, seg)
    {
      var prefix := SegmentLabel(i, j);
      error := [];
      if !seg.JObj? {
        error := [prefix + " 必须是字典"];
      } else if "type" !in seg.fields {
        error := [prefix + " 缺少 'type' 字段"];
      } else if "value" !in seg.fields {
        error := [prefix + " 缺少 'value' 字段"];
      } else if seg.fields["type"] != JStr("text") && seg.fields["type"] != JStr("variable") {
        error := [prefix + " 的 'type' 必须是 'text' 或 'variable'"];
      }
    }

    /** The segment loop of `validate_config` for module `i`. */
    static method CheckSegments(i: nat, segs: seq<JValue>, errors0: seq<string>) returns (errors: seq<string>)
      ensures errors == errors0 + SegmentErrors(i, segs)
    {
      errors := errors0;
      var j := 0;
      while j < |segs|
        invariant 0 <= j <= |segs|
        invariant errors == errors0 + SegmentErrors(i, segs[..j])
      {
        var error := CheckSegment(i, j, segs[j]);
        SegmentErrorsSnoc(i, segs, j);
        errors := errors + error;
        j := j + 1;
      }
      assert segs[..j] == segs;
    }
  }
}
