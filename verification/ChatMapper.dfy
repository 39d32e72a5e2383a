/** The mapper that turns the tagged nodes of a parsed model reply into a message, node by node
    (common/chat-peg-parser.cpp). */
module ChatMapper {
  import opened Wrappers
  import opened ChatMessage
  import opened JsonText
  import QuoteNormalizer
  import JsonSyntax

  /** One visited node, by its tag. `Other` is any node whose tag the mapper does not look at. */
  datatype Event =
    | Reasoning(text: string)
    | Content(text: string)
    | ToolOpen
    | ToolClose
    | ToolName(text: string)
    | ToolId(text: string)
    | ToolArgs(text: string)
    | ArgOpen
    | ArgClose
    | ArgName(text: string)
    | ArgValue(text: string, partial: bool)
    | ArgStringValue(text: string)
    | Other

  /** What a JSON parser says about a text. */
  datatype Parsed = Invalid | StringValue(value: string) | OtherValue

  type Parser = string -> Parsed

  /** What the parser accepts, other than strings, is JSON. */
  ghost predicate AcceptsJson(parse: Parser) {
    forall v: string :: parse(v).OtherValue? ==> JsonSyntax.IsOtherJson(v)
  }

  /** What `current_tool` points at. */
  datatype Current = NoTool | PendingTool | LastTool

  datatype State = State(
    result: Message,
    pending: Option<ToolCall>,
    current: Current,
    argCount: nat,
    quotePending: bool,
    buffer: string)

  const INITIAL := State(EMPTY_MESSAGE, None, NoTool, 0, false, "")

  // ----- the current tool

  /** `current_tool` points at a live call. */
  predicate HasTool(s: State) {
    || (s.current.PendingTool? && s.pending.Some?)
    || (s.current.LastTool? && s.result.calls != [])
  }

  function Tool(s: State): ToolCall
    requires HasTool(s)
  {
    if s.current.PendingTool? then s.pending.value else s.result.calls[|s.result.calls| - 1]
  }

  function WithTool(s: State, t: ToolCall): State
    requires HasTool(s)
  {
    if s.current.PendingTool? then s.(pending := Some(t))
    else s.(result := s.result.(calls := s.result.calls[|s.result.calls| - 1 := t]))
  }

  /** Where arguments go: to the call once it is named, to the buffer before. */
  function Target(s: State): string
    requires HasTool(s)
  {
    if Tool(s).name != "" then Tool(s).arguments else s.buffer
  }

  function WithTarget(s: State, text: string): State
    requires HasTool(s)
  {
    if Tool(s).name != "" then WithTool(s, Tool(s).(arguments := text)) else s.(buffer := text)
  }

  /** Nodes that read or write through `current_tool`. */
  predicate UsesTool(e: Event) {
    e.ToolClose? || e.ToolName? || e.ToolId? || e.ToolArgs? || e.ArgClose? || e.ArgName? || e.ArgValue?
    || e.ArgStringValue?
  }

  /** The node does not reach through a pointer to a discarded call. */
  predicate Defined(s: State, e: Event) {
    UsesTool(e) && !s.current.NoTool? ==> HasTool(s)
  }

  // ----- one node

  function StripQuotes(s: string): string {
    if |s| >= 2 && s[0] == '"' && s[|s| - 1] == '"' then s[1..|s| - 1] else s
  }

  function StepOpen(s: State): State {
    s.(pending := Some(EMPTY_CALL), current := PendingTool, argCount := 0, buffer := "", quotePending := false)
  }

  function StepId(s: State, text: string): State
    requires HasTool(s)
  {
    WithTool(s, Tool(s).(id := StripQuotes(TrimTrailing(text, -1))))
  }

  function StepName(s: State, text: string): State
    requires HasTool(s)
  {
    var t := Tool(s);
    var args := if s.buffer != "" then s.buffer else if t.arguments == "" then "{" else t.arguments;
    var named := t.(name := TrimTrailing(text, -1), arguments := args);
    if s.pending.Some? then
      s.(result := s.result.(calls := s.result.calls + [named]), pending := None, current := LastTool, buffer := "")
    else
      WithTool(s, named).(buffer := "")
  }

  /** A JSON object given whole replaces the arguments; anything else is ignored. */
  predicate IsWholeArgs(text: string) {
    var t := TrimTrailing(text, -1);
    t != "" && t[0] == '{'
  }

  function StepArgs(s: State, text: string): State
    requires HasTool(s)
  {
    if IsWholeArgs(text) then WithTarget(s, TrimTrailing(text, -1)) else s
  }

  function KeyText(argCount: nat, text: string): string {
    (if argCount > 0 then "," else "") + Quote(TrimKey(text)) + ":"
  }

  function StepArgName(s: State, text: string): State
    requires HasTool(s)
  {
    var target := if Target(s) == "" then "{" else Target(s);
    WithTarget(s.(argCount := s.argCount + 1), target + KeyText(s.argCount, text))
  }

  /** How a value is written: not at all, as it stands, or as a string whose closing quote comes later.
      `Fresh` always writes the opening quote, `Quoted` only when none is open. */
  datatype Rendering = Nothing | Raw(text: string) | Quoted(content: string) | Fresh(content: string)

  predicate IsContainer(v: string) {
    v != "" && (v[0] == '[' || v[0] == '{')
  }

  /** The text that is parsed: containers have their Python quotes normalized first. */
  function Normalized(v: string): string {
    if IsContainer(v) then QuoteNormalizer.Normalize(QuoteNormalizer.Outside, v) else v
  }

  function RenderString(text: string): Rendering {
    var v := TrimValue(text);
    if v == "" then Fresh("") else Quoted(v)
  }

  function RenderValue(parse: Parser, text: string, partial: bool): Rendering {
    var v := TrimValue(text);
    if v == "" then Nothing
    else
      var n := Normalized(v);
      match parse(n)
      case StringValue(value) => Fresh(value)
      case OtherValue => Raw(n)
      case Invalid => if partial && IsContainer(v) then Raw(n) else Quoted(n)
  }

  predicate IsValue(e: Event) {
    e.ArgValue? || e.ArgStringValue?
  }

  function Rendered(parse: Parser, e: Event): Rendering
    requires IsValue(e)
  {
    if e.ArgStringValue? then RenderString(e.text) else RenderValue(parse, e.text, e.partial)
  }

  function Piece(r: Rendering, quotePending: bool): string {
    match r
    case Nothing => ""
    case Raw(text) => text
    case Quoted(content) => (if quotePending then "" else "\"") + Escape(content)
    case Fresh(content) => "\"" + Escape(content)
  }

  function StepValue(s: State, r: Rendering): State
    requires HasTool(s)
  {
    WithTarget(s.(quotePending := s.quotePending || r.Quoted? || r.Fresh?), Target(s) + Piece(r, s.quotePending))
  }

  function StepArgClose(s: State): State
    requires HasTool(s)
  {
    if s.quotePending then WithTarget(s, Target(s) + "\"").(quotePending := false) else s
  }

  function Repeat(c: char, n: int): string
    decreases n
  {
    if n <= 0 then "" else Repeat(c, n - 1) + [c]
  }

  /** Brace repair. */
  function CloseBraces(args: string): string {
    args + Repeat('}', BraceDepth(args))
  }

  function StepClose(s: State): State
    requires HasTool(s)
  {
    var t := Tool(s);
    var flush := t.name == "" && s.buffer != "";
    var args := (if flush then s.buffer else t.arguments) + (if s.quotePending then "\"" else "");
    var closed := t.(arguments := CloseBraces(args));
    var s1 := WithTool(s, closed).(buffer := if flush then "" else s.buffer, quotePending := false);
    if s.pending.Some? then
      s1.(pending := None,
          result := if t.name != "" then s1.result.(calls := s1.result.calls + [closed]) else s1.result)
    else s1
  }

  function Step(parse: Parser, s: State, e: Event): State
    requires Defined(s, e)
  {
    match e
    case Reasoning(text) => s.(result := s.result.(reasoning := s.result.reasoning + text))
    case Content(text) => s.(result := s.result.(content := s.result.content + text))
    case ToolOpen => StepOpen(s)
    case ArgOpen => s.(quotePending := false)
    case Other => s
    case _ => if s.current.NoTool? then s else StepTool(parse, s, e)
  }

  function StepTool(parse: Parser, s: State, e: Event): State
    requires UsesTool(e) && HasTool(s)
  {
    match e
    case ToolId(text) => StepId(s, text)
    case ToolName(text) => StepName(s, text)
    case ToolArgs(text) => StepArgs(s, text)
    case ArgName(text) => StepArgName(s, text)
    case ArgValue(text, partial) => StepValue(s, RenderValue(parse, text, partial))
    case ArgStringValue(text) => StepValue(s, RenderString(text))
    case ArgClose => StepArgClose(s)
    case ToolClose => StepClose(s)
  }

  // ----- whole runs

  predicate RunDefined(parse: Parser, s: State, es: seq<Event>)
    decreases |es|
  {
    es == [] || (Defined(s, es[0]) && RunDefined(parse, Step(parse, s, es[0]), es[1..]))
  }

  function Run(parse: Parser, s: State, es: seq<Event>): State
    requires RunDefined(parse, s, es)
    decreases |es|
  {
    if es == [] then s else Run(parse, Step(parse, s, es[0]), es[1..])
  }

  lemma SingleRun(parse: Parser, s: State, e: Event)
    requires Defined(s, e)
    ensures RunDefined(parse, s, [e]) && Run(parse, s, [e]) == Step(parse, s, e)
  {
    assert [e][1..] == [];
  }

  lemma {:induction false} RunConcat(parse: Parser, s: State, a: seq<Event>, b: seq<Event>)
    requires RunDefined(parse, s, a)
    ensures RunDefined(parse, s, a + b) <==> RunDefined(parse, Run(parse, s, a), b)
    ensures RunDefined(parse, s, a + b) ==> Run(parse, s, a + b) == Run(parse, Run(parse, s, a), b)
    decreases |a|
  {
    if a == [] {
      assert a + b == b;
    } else {
      assert (a + b)[0] == a[0] && (a + b)[1..] == a[1..] + b;
      RunConcat(parse, Step(parse, s, a[0]), a[1..], b);
    }
  }

  // ----- nodes without an effect

  /** The nodes the mapper looks at. Rules without a tag add nodes too, which are visited after the node that
      holds them. */
  function Seen(es: seq<Event>): seq<Event> {
    if es == [] then [] else (if es[0].Other? then [] else [es[0]]) + Seen(es[1..])
  }

  /** The others change nothing. */
  lemma {:induction false} SeenRuns(parse: Parser, s: State, es: seq<Event>)
    ensures RunDefined(parse, s, es) <==> RunDefined(parse, s, Seen(es))
    ensures RunDefined(parse, s, es) ==> Run(parse, s, es) == Run(parse, s, Seen(es))
    decreases |es|
  {
    if es != [] {
      SeenHead(es);
      if es[0].Other? || Defined(s, es[0]) {
        SeenRuns(parse, Step(parse, s, es[0]), es[1..]);
      }
    }
  }

  lemma SeenHead(es: seq<Event>)
    requires es != []
    ensures if es[0].Other? then Seen(es) == Seen(es[1..])
            else Seen(es) != [] && Seen(es)[0] == es[0] && Seen(es)[1..] == Seen(es[1..])
  {
  }

  lemma {:induction false} SeenConcat(a: seq<Event>, b: seq<Event>)
    ensures Seen(a + b) == Seen(a) + Seen(b)
    decreases |a|
  {
    if a == [] {
      assert a + b == b;
    } else {
      assert (a + b)[0] == a[0] && (a + b)[1..] == a[1..] + b;
      SeenConcat(a[1..], b);
    }
  }

  predicate AllOther(es: seq<Event>) {
    forall i :: 0 <= i < |es| ==> es[i].Other?
  }

  lemma {:induction false} OthersUnseen(es: seq<Event>)
    requires AllOther(es)
    ensures Seen(es) == []
    decreases |es|
  {
    if es != [] {
      OthersUnseen(es[1..]);
    }
  }

  lemma SeenWithOthers(a: seq<Event>, kids: seq<Event>)
    requires AllOther(kids)
    ensures Seen(a + kids) == Seen(a)
  {
    SeenConcat(a, kids);
    OthersUnseen(kids);
    assert Seen(a) + [] == Seen(a);
  }

  // ----- the end of a pass

  predicate IsBlank(s: string) {
    forall i :: 0 <= i < |s| ==> s[i] == ' ' || s[i] == '\n' || s[i] == '\r' || s[i] == '\t'
  }

  /** A call that was started but never closed is pushed if it has a name. */
  function Flush(s: State): State {
    if s.pending.Some? && s.pending.value.name != "" then
      var p := s.pending.value;
      var args := if s.buffer != "" then s.buffer else p.arguments;
      var closed := p.(arguments := args + (if s.quotePending && args != "" then "\"" else ""));
      s.(result := s.result.(calls := s.result.calls + [closed]), pending := None)
    else s
  }

  /** The message at the end of a pass: blank reasoning is discarded. */
  function Finish(s: State): Message {
    var m := Flush(s).result;
    if IsBlank(m.reasoning) then m.(reasoning := "") else m
  }

  /** A pending call is the current one, and a pointer to the last call is never left behind by a push. */
  predicate PointersValid(s: State) {
    && (s.pending.Some? ==> s.current.PendingTool?)
    && (s.current.LastTool? ==> s.result.calls != [])
  }

  /** What every reachable state satisfies: besides valid pointers, a pending call has no name yet. */
  predicate Inv(s: State) {
    PointersValid(s) && (s.pending.Some? ==> s.pending.value.name == "")
  }

  lemma StepKeepsInv(parse: Parser, s: State, e: Event)
    requires PointersValid(s) && Defined(s, e)
    ensures PointersValid(Step(parse, s, e))
    ensures Inv(s) ==> Inv(Step(parse, s, e))
  {
  }

  lemma {:induction false} RunKeepsInv(parse: Parser, s: State, es: seq<Event>)
    requires Inv(s) && RunDefined(parse, s, es)
    ensures Inv(Run(parse, s, es))
    decreases |es|
  {
    if es != [] {
      StepKeepsInv(parse, s, es[0]);
      RunKeepsInv(parse, Step(parse, s, es[0]), es[1..]);
    }
  }

  // ----- when the current call is a discarded one

  /** What the current-call pointer refers to: nothing yet, a call without a name, a call of the message, or a
      call that was closed without a name and discarded. */
  datatype Pointer = Null | Unnamed | Live | Gone

  function PointerStep(p: Pointer, e: Event): Pointer {
    match e
    case ToolOpen => Unnamed
    case ToolName(_) => if p.Unnamed? then Live else p
    case ToolClose => if p.Unnamed? then Gone else p
    case _ => p
  }

  /** No node reads through the pointer while it refers to a discarded call. */
  predicate NeverGone(p: Pointer, es: seq<Event>)
    decreases |es|
  {
    es == [] || (!(p.Gone? && UsesTool(es[0])) && NeverGone(PointerStep(p, es[0]), es[1..]))
  }

  predicate PointsAs(p: Pointer, s: State) {
    && Inv(s)
    && match p
       case Null => s.current.NoTool?
       case Unnamed => s.current.PendingTool? && s.pending.Some?
       case Live => s.current.LastTool? && s.result.calls != []
       case Gone => s.current.PendingTool? && s.pending.None?
  }

  lemma PointerFollows(parse: Parser, p: Pointer, s: State, e: Event)
    requires PointsAs(p, s)
    ensures Defined(s, e) <==> !(p.Gone? && UsesTool(e))
    ensures Defined(s, e) ==> PointsAs(PointerStep(p, e), Step(parse, s, e))
  {
  }

  lemma {:induction false} RunDefinedFrom(parse: Parser, p: Pointer, s: State, es: seq<Event>)
    requires PointsAs(p, s)
    ensures RunDefined(parse, s, es) <==> NeverGone(p, es)
    decreases |es|
  {
    if es != [] {
      PointerFollows(parse, p, s, es[0]);
      if Defined(s, es[0]) {
        RunDefinedFrom(parse, PointerStep(p, es[0]), Step(parse, s, es[0]), es[1..]);
      }
    }
  }

  /** A pass never reads through a discarded call exactly when, on the nodes alone, none that uses the current
      call comes after a call that was closed without a name and before the next one is opened. */
  lemma RunDefinedIff(parse: Parser, es: seq<Event>)
    ensures RunDefined(parse, INITIAL, es) <==> NeverGone(Null, es)
  {
    RunDefinedFrom(parse, Null, INITIAL, es);
  }

  /** The shortest pass that does. */
  lemma SecondCloseReadsDiscarded(parse: Parser)
    ensures !RunDefined(parse, INITIAL, [ToolOpen, ToolClose, ToolClose])
  {
    var es := [ToolOpen, ToolClose, ToolClose];
    assert es[1..] == [ToolClose, ToolClose] && es[1..][1..] == [ToolClose];
    RunDefinedIff(parse, es);
  }

  // ----- the flush

  /** The end-of-input flush never has anything to push: a call enters the message the moment it is named,
      on every run. */
  lemma FlushIsIdle(parse: Parser, es: seq<Event>)
    requires RunDefined(parse, INITIAL, es)
    ensures var s := Run(parse, INITIAL, es); Flush(s) == s
  {
    RunKeepsInv(parse, INITIAL, es);
  }

  // ----- the mapper object

  class Mapper {
    const parse: Parser
    var result: Message
    var pending: Option<ToolCall>
    var current: Current
    var argCount: nat
    var quotePending: bool
    var buffer: string

    /** The fields as a value. */
    function Abs(): State
      reads this
    {
      State(result, pending, current, argCount, quotePending, buffer)
    }

    ghost predicate Valid()
      reads this
    {
      PointersValid(Abs())
    }

    constructor (parse: Parser)
      ensures Valid() && Abs() == INITIAL && this.parse == parse
    {
      this.parse := parse;
      result, pending, current := EMPTY_MESSAGE, None, NoTool;
      argCount, quotePending, buffer := 0, false, "";
    }

    /** Stores through `current_tool`. */
    method AssignTool(t: ToolCall)
      requires HasTool(Abs())
      modifies this
      ensures Abs() == WithTool(old(Abs()), t)
    {
      if current.PendingTool? {
        pending := Some(t);
      } else {
        result := result.(calls := result.calls[|result.calls| - 1 := t]);
      }
    }

    /** Stores through `args_target()`. */
    method AssignTarget(text: string)
      requires HasTool(Abs())
      modifies this
      ensures Abs() == WithTarget(old(Abs()), text)
    {
      var tool := Tool(Abs());
      if tool.name != "" {
        AssignTool(tool.(arguments := text));
      } else {
        buffer := text;
      }
    }

    method MapId(node: string)
      requires Valid() && HasTool(Abs())
      modifies this
      ensures Abs() == StepId(old(Abs()), node)
    {
      var text := TrimTrailingSpace(node, -1);
      if |text| >= 2 && text[0] == '"' && text[|text| - 1] == '"' {
        text := text[1..|text| - 1];
      }
      AssignTool(Tool(Abs()).(id := text));
    }

    method MapName(node: string)
      requires Valid() && HasTool(Abs())
      modifies this
      ensures Abs() == StepName(old(Abs()), node)
    {
      var name := TrimTrailingSpace(node, -1);
      var tool := Tool(Abs()).(name := name);
      if buffer != "" {
        tool := tool.(arguments := buffer);
        buffer := "";
      } else if tool.arguments == "" {
        tool := tool.(arguments := "{");
      }
      AssignTool(tool);
      if pending.Some? {
        result := result.(calls := result.calls + [pending.value]);
        pending := None;
        current := LastTool;
      }
    }

    method MapArgs(node: string)
      requires Valid() && HasTool(Abs())
      modifies this
      ensures Abs() == StepArgs(old(Abs()), node)
    {
      var text := TrimTrailingSpace(node, -1);
      if text != "" && text[0] == '{' {
        AssignTarget(text);
      }
    }

    method MapArgName(node: string)
      requires Valid() && HasTool(Abs())
      modifies this
      ensures Abs() == StepArgName(old(Abs()), node)
    {
      var entry := "";
      if argCount > 0 {
        entry := ",";
      }
      var lead := TrimLeadingSpace(node, 1);
      var key := TrimTrailingSpace(lead, -1);
      entry := entry + Quote(key) + ":";
      var target := Target(Abs());
      argCount := argCount + 1;
      if target == "" {
        target := "{";
      }
      AssignTarget(target + entry);
    }

    /** The text a value node adds, and whether it leaves a string open. */
    method ValueText(e: Event) returns (add: string, open: bool)
      requires IsValue(e)
      ensures var r := if e.ArgStringValue? then RenderString(e.text) else RenderValue(parse, e.text, e.partial);
              && add == Piece(r, quotePending)
              && open == (quotePending || r.Quoted? || r.Fresh?)
    {
      var lead := TrimLeadingSpace(e.text, 1);
      var content := TrimTrailingSpace(lead, 1);
      add, open := "", quotePending;
      if content == "" && e.ArgStringValue? {
        add, open := "\"", true;
      } else if content != "" && e.ArgStringValue? {
        if !quotePending {
          add, open := "\"", true;
        }
        add := add + Escape(content);
      } else if content != "" {
        var container := content[0] == '[' || content[0] == '{';
        if container {
          content := QuoteNormalizer.NormalizeQuotes(content);
        }
        match parse(content)
        case StringValue(value) =>
          add, open := "\"" + Escape(value), true;
        case OtherValue =>
          add := content;
        case Invalid =>
          if e.partial && container {
            add := content;
          } else {
            if !quotePending {
              add, open := "\"", true;
            }
            add := add + Escape(content);
          }
      }
    }

    method MapValue(e: Event)
      requires Valid() && HasTool(Abs())
      requires IsValue(e)
      modifies this
      ensures Abs() == StepTool(parse, old(Abs()), e)
    {
      var add, open := ValueText(e);
      var target := Target(Abs());
      quotePending := open;
      AssignTarget(target + add);
    }

    method MapClose()
      requires Valid() && HasTool(Abs())
      modifies this
      ensures Abs() == StepClose(old(Abs()))
    {
      var tool := Tool(Abs());
      if tool.name == "" && buffer != "" {
        tool := tool.(arguments := buffer);
        buffer := "";
      }
      if quotePending {
        tool := tool.(arguments := tool.arguments + "\"");
        quotePending := false;
      } else {
        assert tool.arguments + "" == tool.arguments;
      }
      var unclosed := tool.arguments;
      var depth := JsonBraceDepth(unclosed);
      var d := depth;
      var closed := unclosed;
      assert unclosed + Repeat('}', 0) == unclosed;
      while d > 0
        invariant depth <= 0 ==> d == depth
        invariant depth > 0 ==> 0 <= d <= depth && closed == unclosed + Repeat('}', depth - d)
        invariant depth <= 0 ==> closed == unclosed
      {
        closed := closed + "}";
        d := d - 1;
      }
      assert closed == CloseBraces(unclosed);
      AssignTool(tool.(arguments := closed));
      if pending.Some? {
        if tool.name != "" {
          result := result.(calls := result.calls + [pending.value]);
        }
        pending := None;
      }
    }

    /** One visited node. */
    method Map(e: Event)
      requires Valid() && Defined(Abs(), e)
      modifies this
      ensures Valid() && Abs() == Step(parse, old(Abs()), e)
    {
      StepKeepsInv(parse, Abs(), e);
      match e
      case Reasoning(text) => result := result.(reasoning := result.reasoning + text);
      case Content(text) => result := result.(content := result.content + text);
      case ToolOpen =>
        pending := Some(EMPTY_CALL);
        current := PendingTool;
        argCount, buffer, quotePending := 0, "", false;
      case ArgOpen => quotePending := false;
      case Other =>
      case _ =>
        if !current.NoTool? {
          MapTool(e);
        }
    }

    method MapTool(e: Event)
      requires Valid() && HasTool(Abs()) && UsesTool(e)
      modifies this
      ensures Abs() == StepTool(parse, old(Abs()), e)
    {
      match e
      case ToolId(text) => MapId(text);
      case ToolName(text) => MapName(text);
      case ToolArgs(text) => MapArgs(text);
      case ArgName(text) => MapArgName(text);
      case ArgValue(_, _) => MapValue(e);
      case ArgStringValue(_) => MapValue(e);
      case ArgClose =>
        if quotePending {
          AssignTarget(Target(Abs()) + "\"");
          quotePending := false;
        }
      case ToolClose => MapClose();
    }

    /** A whole pass over the visited nodes. */
    method FromAst(es: seq<Event>)
      requires Valid() && RunDefined(parse, Abs(), es)
      modifies this
      ensures result == Finish(Run(parse, old(Abs()), es))
    {
      ghost var start := Abs();
      for i := 0 to |es|
        invariant Valid()
        invariant RunDefined(parse, Abs(), es[i..])
        invariant Run(parse, Abs(), es[i..]) == Run(parse, start, es)
      {
        assert es[i..][0] == es[i] && es[i..][1..] == es[i + 1..];
        Map(es[i]);
      }
      assert Abs() == Run(parse, start, es);
      if pending.Some? && pending.value.name != "" {
        var call := pending.value;
        if buffer != "" {
          call := call.(arguments := buffer);
        }
        assert call.arguments + "" == call.arguments;
        if quotePending && call.arguments != "" {
          call := call.(arguments := call.arguments + "\"");
        }
        result := result.(calls := result.calls + [call]);
        pending := None;
      }
      assert result == Flush(Run(parse, start, es)).result;
      var blank := true;
      for i := 0 to |result.reasoning|
        invariant blank ==> IsBlank(result.reasoning[..i])
        invariant !blank ==> !IsBlank(result.reasoning)
      {
        var c := result.reasoning[i];
        if c != ' ' && c != '\n' && c != '\r' && c != '\t' {
          blank := false;
          break;
        }
      }
      assert result.reasoning[..|result.reasoning|] == result.reasoning;
      if blank {
        result := result.(reasoning := "");
      }
    }
  }
}
