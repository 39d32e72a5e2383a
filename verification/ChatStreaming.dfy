/** Streaming: the reply is parsed again each time text arrives, and the differ compares the messages.
    For well-formed node streams the messages only grow, so the differ never throws and its deltas
    rebuild the final message. */
module ChatStreaming {
  import opened Wrappers
  import opened ChatMessage
  import opened JsonText
  import opened ChatMapper
  import ChatDiff
  import QuoteNormalizer

  // ----- well-formed node streams

  /** Where a stream stands: no call yet, inside a call (with what the call has had so far), or after a call
      that was closed or got a blank name. */
  datatype Ctx = Idle | Open(named: bool, hasId: bool, hasArgs: bool) | Closed

  /** Each call has at most one id, one name, and no JSON object of arguments after other arguments; a blank
      name is the last of its call. `None` means the stream is ill-formed. */
  function CtxStep(c: Ctx, e: Event): Option<Ctx> {
    match e
    case Reasoning(_) => Some(c)
    case Content(_) => Some(c)
    case Other => Some(c)
    case ToolOpen => Some(Open(false, false, false))
    case ArgOpen => Some(c)
    case _ => if c.Idle? then Some(Idle) else if c.Open? then CtxCall(c, e) else None
  }

  function CtxCall(c: Ctx, e: Event): Option<Ctx>
    requires c.Open? && UsesTool(e)
  {
    match e
    case ToolId(_) => if c.hasId then None else Some(c.(hasId := true))
    case ToolName(text) =>
      if c.named then None else Some(if TrimTrailing(text, -1) == "" then Closed else c.(named := true))
    case ToolArgs(text) =>
      if !IsWholeArgs(text) then Some(c) else if c.hasArgs then None else Some(c.(hasArgs := true))
    case ArgName(_) => Some(c.(hasArgs := true))
    case ArgValue(_, _) => Some(c.(hasArgs := true))
    case ArgStringValue(_) => Some(c.(hasArgs := true))
    case ArgClose => Some(c)
    case ToolClose => Some(Closed)
  }

  function CtxRun(c: Ctx, es: seq<Event>): Option<Ctx>
    decreases |es|
  {
    if es == [] then Some(c)
    else match CtxStep(c, es[0])
      case None => None
      case Some(c') => CtxRun(c', es[1..])
  }

  predicate WellFormed(es: seq<Event>) {
    CtxRun(Idle, es).Some?
  }

  /** What the position in the stream says about the mapper. */
  predicate Linked(c: Ctx, s: State) {
    && Inv(s)
    && match c
       case Idle => s.current.NoTool?
       case Closed => s.pending.None?
       case Open(named, hasId, hasArgs) =>
         && HasTool(s)
         && (s.quotePending ==> hasArgs)
         && (!hasId ==> Tool(s).id == "")
         && (if named then s.current.LastTool? && Tool(s).name != "" && (!hasArgs ==> Tool(s).arguments == "{")
             else s.current.PendingTool? && Tool(s).arguments == "" && (!hasArgs ==> s.buffer == ""))
  }

  // ----- one more node

  lemma LastCallChanges(m: Message, t: ToolCall)
    requires m.calls != []
    ensures Grows(m, m.(calls := m.calls[|m.calls| - 1 := t])) <==> CallGrows(m.calls[|m.calls| - 1], t)
  {
    var last := |m.calls| - 1;
    assert m.calls[last := t][..last] == m.calls[..last];
  }

  lemma CallPushed(m: Message, t: ToolCall)
    ensures Grows(m, m.(calls := m.calls + [t]))
  {
    if m.calls != [] {
      var last := |m.calls| - 1;
      assert (m.calls + [t])[..last] == m.calls[..last];
    }
  }

  /** Writing a longer text to the argument target. */
  lemma TargetGrows(s: State, text: string)
    requires Inv(s) && HasTool(s) && Target(s) <= text
    ensures Grows(s.result, WithTarget(s, text).result)
  {
    GrowsReflexive(s.result);
    if s.current.LastTool? {
      LastCallChanges(s.result, Tool(s).(arguments := text));
    }
  }

  lemma NameGrows(parse: Parser, c: Ctx, s: State, text: string)
    requires Linked(c, s) && c.Open? && CtxStep(c, ToolName(text)).Some?
    ensures Linked(CtxStep(c, ToolName(text)).value, Step(parse, s, ToolName(text)))
    ensures Grows(s.result, Step(parse, s, ToolName(text)).result)
  {
    var s' := StepName(s, text);
    CallPushed(s.result, Tool(s'));
  }

  lemma IdGrows(parse: Parser, c: Ctx, s: State, text: string)
    requires Linked(c, s) && c.Open? && CtxStep(c, ToolId(text)).Some?
    ensures Linked(CtxStep(c, ToolId(text)).value, Step(parse, s, ToolId(text)))
    ensures Grows(s.result, Step(parse, s, ToolId(text)).result)
  {
    GrowsReflexive(s.result);
    if s.current.LastTool? {
      LastCallChanges(s.result, Tool(StepId(s, text)));
    }
  }

  lemma CloseGrows(parse: Parser, c: Ctx, s: State)
    requires Linked(c, s) && c.Open?
    ensures Linked(Closed, Step(parse, s, ToolClose))
    ensures Grows(s.result, Step(parse, s, ToolClose).result)
  {
    GrowsReflexive(s.result);
    if s.current.LastTool? {
      var args := Tool(s).arguments + (if s.quotePending then "\"" else "");
      assert Tool(s).arguments <= args <= CloseBraces(args);
      LastCallChanges(s.result, Tool(s).(arguments := CloseBraces(args)));
    }
  }

  lemma WholeArgsNodeGrows(parse: Parser, c: Ctx, s: State, text: string)
    requires Linked(c, s) && c.Open? && CtxStep(c, ToolArgs(text)).Some?
    ensures Linked(CtxStep(c, ToolArgs(text)).value, StepArgs(s, text))
    ensures Grows(s.result, StepArgs(s, text).result)
  {
    GrowsReflexive(s.result);
    if IsWholeArgs(text) {
      assert Target(s) <= TrimTrailing(text, -1);
      TargetGrows(s, TrimTrailing(text, -1));
    }
  }

  lemma ArgNameGrows(parse: Parser, c: Ctx, s: State, text: string)
    requires Linked(c, s) && c.Open?
    ensures Linked(c.(hasArgs := true), StepArgName(s, text))
    ensures Grows(s.result, StepArgName(s, text).result)
  {
    var target := if Target(s) == "" then "{" else Target(s);
    TargetGrows(s.(argCount := s.argCount + 1), target + KeyText(s.argCount, text));
  }

  lemma ValueNodeGrows(c: Ctx, s: State, r: Rendering)
    requires Linked(c, s) && c.Open?
    ensures Linked(c.(hasArgs := true), StepValue(s, r))
    ensures Grows(s.result, StepValue(s, r).result)
  {
    var s1 := s.(quotePending := s.quotePending || r.Quoted? || r.Fresh?);
    TargetGrows(s1, Target(s) + Piece(r, s.quotePending));
  }

  lemma ArgCloseGrows(c: Ctx, s: State)
    requires Linked(c, s) && c.Open?
    ensures Linked(c, StepArgClose(s))
    ensures Grows(s.result, StepArgClose(s).result)
  {
    GrowsReflexive(s.result);
    if s.quotePending {
      TargetGrows(s, Target(s) + "\"");
    }
  }

  /** The mapper follows the stream and the message grows. */
  ghost predicate Follows(c: Ctx, s: State, s': State) {
    Linked(c, s') && Grows(s.result, s'.result)
  }

  predicate CallNode(e: Event) {
    e.ToolName? || e.ToolId? || e.ToolClose? || e.ToolArgs?
  }

  lemma CallNodeGrows(parse: Parser, c: Ctx, s: State, e: Event)
    requires Linked(c, s) && CtxStep(c, e).Some? && c.Open? && CallNode(e)
    ensures Follows(CtxStep(c, e).value, s, Step(parse, s, e))
  {
    if e.ToolName? {
      NameGrows(parse, c, s, e.text);
    } else if e.ToolId? {
      IdGrows(parse, c, s, e.text);
    } else if e.ToolClose? {
      CloseGrows(parse, c, s);
    } else {
      WholeArgsNodeGrows(parse, c, s, e.text);
    }
  }

  lemma ArgNodeGrows(parse: Parser, c: Ctx, s: State, e: Event)
    requires Linked(c, s) && CtxStep(c, e).Some? && c.Open? && UsesTool(e) && !CallNode(e)
    ensures Follows(CtxStep(c, e).value, s, Step(parse, s, e))
  {
    if e.ArgName? {
      ArgNameGrows(parse, c, s, e.text);
    } else if e.ArgClose? {
      ArgCloseGrows(c, s);
    } else {
      ValueNodeGrows(c, s, Rendered(parse, e));
    }
  }

  lemma PlainNodeGrows(parse: Parser, c: Ctx, s: State, e: Event)
    requires Linked(c, s) && CtxStep(c, e).Some? && !(c.Open? && UsesTool(e))
    ensures Defined(s, e) && Follows(CtxStep(c, e).value, s, Step(parse, s, e))
  {
    GrowsReflexive(s.result);
  }

  /** A further node of a well-formed stream only grows the message. */
  lemma StepGrows(parse: Parser, c: Ctx, s: State, e: Event)
    requires Linked(c, s) && CtxStep(c, e).Some?
    ensures Defined(s, e) && Follows(CtxStep(c, e).value, s, Step(parse, s, e))
  {
    if !(c.Open? && UsesTool(e)) {
      PlainNodeGrows(parse, c, s, e);
    } else if CallNode(e) {
      CallNodeGrows(parse, c, s, e);
    } else {
      ArgNodeGrows(parse, c, s, e);
    }
  }

  lemma {:induction false} RunGrows(parse: Parser, c: Ctx, s: State, es: seq<Event>)
    requires Linked(c, s) && CtxRun(c, es).Some?
    ensures RunDefined(parse, s, es)
    ensures Linked(CtxRun(c, es).value, Run(parse, s, es))
    ensures Grows(s.result, Run(parse, s, es).result)
    decreases |es|
  {
    GrowsReflexive(s.result);
    if es != [] {
      var s' := Step(parse, s, es[0]);
      StepGrows(parse, c, s, es[0]);
      RunGrows(parse, CtxStep(c, es[0]).value, s', es[1..]);
      GrowsTransitive(s.result, s'.result, Run(parse, s, es).result);
    }
  }

  // ----- the same node with more text

  /** A longer version of a value keeps what was already written: nothing was written, or both are raw
      text, or both are string contents, and in the last two cases the text got longer. While a quote is open,
      a JSON string starts with a quote of its own and other contents do not, and then raw text and contents
      may agree by chance. */
  predicate RenderingGrows(open: bool, r: Rendering, r': Rendering) {
    match r
    case Nothing => true
    case Raw(a) => (r'.Raw? && a <= r'.text) || (open && r'.Quoted? && a <= Escape(r'.content))
    case Quoted(a) =>
      || (r'.Quoted? && a <= r'.content)
      || (!open && r'.Fresh? && a <= r'.content)
      || (open && r'.Raw? && Escape(a) <= r'.text)
    case Fresh(a) => (r'.Fresh? && a <= r'.content) || (!open && r'.Quoted? && a <= r'.content)
  }

  /** Declared strings stream, except that with a quote open a blank one must stay blank. */
  lemma StringsStreamIff(open: bool, x: string, y: string)
    requires x <= y
    ensures RenderingGrows(open, RenderString(x), RenderString(y)) <==>
            (open ==> TrimValue(x) != "" || TrimValue(y) == "")
  {
    TrimValueMonotone(x, y);
  }

  /** A value that is passed on as it stands: JSON other than a string, or a list or object cut off. */
  predicate IsRaw(parse: Parser, v: string, partial: bool) {
    var p := parse(Normalized(v));
    p.OtherValue? || (p.Invalid? && partial && IsContainer(v))
  }

  predicate IsJsonString(parse: Parser, v: string) {
    parse(Normalized(v)).StringValue?
  }

  /** What a value that is not passed on says: the JSON string, or its own text. */
  function Said(parse: Parser, v: string): string {
    match parse(Normalized(v))
    case StringValue(value) => value
    case _ => Normalized(v)
  }

  /** The cut falls between a backslash and a single quote inside a single-quoted string of a list or object. */
  predicate CutsEscape(v: string, w: string) {
    IsContainer(v) && QuoteNormalizer.EndsInHalfEscape(QuoteNormalizer.Outside, v) && |v| < |w| && w[|v|] == '\''
  }

  /** When the text `x` of an undeclared value may become `y`. It is blank; or both are passed on or neither
      is, and then no escape is cut or, if JSON strings are involved, what they say is a prefix and, with a
      quote open, both are. With a quote open a value that is passed on may also become a literal, and the
      other way round, when the text written for the one happens to begin that of the other. */
  predicate ValueStreams(parse: Parser, open: bool, x: string, xPartial: bool, y: string, yPartial: bool) {
    var v, w := TrimValue(x), TrimValue(y);
    var jsonV, jsonW := IsJsonString(parse, v), IsJsonString(parse, w);
    if v == "" then true
    else if IsRaw(parse, v, xPartial) == IsRaw(parse, w, yPartial) then
      if jsonV || jsonW then (open ==> jsonV && jsonW) && Said(parse, v) <= Said(parse, w)
      else !CutsEscape(v, w)
    else
      && open && !jsonV && !jsonW
      && if IsRaw(parse, v, xPartial) then Normalized(v) <= Escape(Normalized(w))
         else Escape(Normalized(v)) <= Normalized(w)
  }

  lemma NormalizedGrowsIff(v: string, w: string)
    requires v != "" && v <= w
    ensures Normalized(v) <= Normalized(w) <==> !CutsEscape(v, w)
  {
    assert v[0] == w[0];
    QuoteNormalizer.NormalizeStreamsIff(QuoteNormalizer.Outside, v, w);
  }

  /** The condition on texts and parser verdicts is exactly that what was written stays. */
  lemma ValueStreamsIff(parse: Parser, open: bool, x: string, xPartial: bool, y: string, yPartial: bool)
    requires x <= y
    ensures RenderingGrows(open, RenderValue(parse, x, xPartial), RenderValue(parse, y, yPartial)) <==>
            ValueStreams(parse, open, x, xPartial, y, yPartial)
  {
    TrimValueMonotone(x, y);
    var v, w := TrimValue(x), TrimValue(y);
    if v != "" {
      NormalizedGrowsIff(v, w);
      RenderingIs(parse, x, xPartial);
      RenderingIs(parse, y, yPartial);
    }
  }

  lemma RenderingIs(parse: Parser, x: string, partial: bool)
    requires TrimValue(x) != ""
    ensures var v, r := TrimValue(x), RenderValue(parse, x, partial);
            if IsRaw(parse, v, partial) then r == Raw(Normalized(v))
            else if IsJsonString(parse, v) then r == Fresh(Said(parse, v))
            else r == Quoted(Normalized(v)) && Said(parse, v) == Normalized(v)
  {
  }

  /** Two ways of writing the value of a named call differ only in the arguments of the last call. */
  lemma NamedValues(s: State, r: Rendering, r': Rendering)
    requires s.current.LastTool? && HasTool(s) && Tool(s).name != ""
    ensures var m, q := StepValue(s, r).result, s.quotePending;
            && m.calls != []
            && m.calls[|m.calls| - 1] == Tool(s).(arguments := Target(s) + Piece(r, q))
            && StepValue(s, r').result == m.(calls := m.calls[|m.calls| - 1 :=
                 Tool(s).(arguments := Target(s) + Piece(r', q))])
  {
  }

  lemma NamedValueGrowsIff(s: State, r: Rendering, r': Rendering)
    requires s.current.LastTool? && HasTool(s) && Tool(s).name != ""
    ensures Grows(StepValue(s, r).result, StepValue(s, r').result) <==>
            Piece(r, s.quotePending) <= Piece(r', s.quotePending)
  {
    var q := s.quotePending;
    NamedValues(s, r, r');
    LastCallChanges(StepValue(s, r).result, Tool(s).(arguments := Target(s) + Piece(r', q)));
    PrefixCancel(Target(s), Piece(r, q), Piece(r', q));
  }

  lemma ValueStep(parse: Parser, s: State, e: Event)
    requires HasTool(s) && !s.current.NoTool? && IsValue(e)
    ensures Step(parse, s, e) == StepValue(s, Rendered(parse, e))
  {
  }

  /** Nodes with the same tag, the second with more text. */
  predicate MoreText(e: Event, e': Event) {
    || (e.Reasoning? && e'.Reasoning? && e.text <= e'.text)
    || (e.Content? && e'.Content? && e.text <= e'.text)
    || (e.ToolName? && e'.ToolName? && e.text <= e'.text)
    || (e.ToolId? && e'.ToolId? && e.text <= e'.text)
    || (e.ToolArgs? && e'.ToolArgs? && e.text <= e'.text)
    || (e.ArgName? && e'.ArgName? && e.text <= e'.text)
    || (e.ArgStringValue? && e'.ArgStringValue? && e.text <= e'.text)
    || (e.ArgValue? && e'.ArgValue? && e.text <= e'.text)
  }

  /** What a longer text must not do once the call is visible: empty the id, change a key, or take back a
      value. */
  predicate KeepsWritten(parse: Parser, open: bool, e: Event, e': Event)
    requires MoreText(e, e')
  {
    match e
    case ToolId(x) => !(TrimTrailing(x, -1) == "\"" && TrimTrailing(e'.text, -1) == "\"\"")
    case ArgName(x) => TrimKey(x) == TrimKey(e'.text)
    case ArgStringValue(x) => open ==> TrimValue(x) != "" || TrimValue(e'.text) == ""
    case ArgValue(x, partial) => ValueStreams(parse, open, x, partial, e'.text, e'.partial)
    case _ => true
  }

  /** Whether a value leaves its closing quote to be written later. */
  predicate OpensQuote(parse: Parser, e: Event)
    requires IsValue(e)
  {
    e.ArgStringValue? || (TrimValue(e.text) != "" && !IsRaw(parse, TrimValue(e.text), e.partial))
  }

  /** Whether a quote is open after a node inside a call. */
  predicate QuoteStep(parse: Parser, open: bool, e: Event) {
    if e.ToolOpen? || e.ToolClose? || e.ArgOpen? || e.ArgClose? then false
    else open || (IsValue(e) && OpensQuote(parse, e))
  }

  predicate QuoteRun(parse: Parser, open: bool, es: seq<Event>)
    decreases |es|
  {
    if es == [] then open else QuoteRun(parse, QuoteStep(parse, open, es[0]), es[1..])
  }

  predicate QuoteLinked(c: Ctx, open: bool, s: State) {
    c.Open? ==> open == s.quotePending
  }

  lemma QuoteFollows(parse: Parser, c: Ctx, open: bool, s: State, e: Event)
    requires Linked(c, s) && CtxStep(c, e).Some? && QuoteLinked(c, open, s) && Defined(s, e)
    ensures QuoteLinked(CtxStep(c, e).value, QuoteStep(parse, open, e), Step(parse, s, e))
  {
  }

  lemma {:induction false} QuoteRunFollows(parse: Parser, c: Ctx, open: bool, s: State, es: seq<Event>)
    requires Linked(c, s) && CtxRun(c, es).Some? && QuoteLinked(c, open, s)
    ensures RunDefined(parse, s, es)
    ensures QuoteLinked(CtxRun(c, es).value, QuoteRun(parse, open, es), Run(parse, s, es))
    decreases |es|
  {
    if es != [] {
      StepGrows(parse, c, s, es[0]);
      QuoteFollows(parse, c, open, s, es[0]);
      QuoteRunFollows(parse, CtxStep(c, es[0]).value, QuoteStep(parse, open, es[0]), Step(parse, s, es[0]), es[1..]);
    }
  }

  /** How the last node of a cut-off stream may differ from the node it becomes. It stands at `c`, and `open`
      says whether a quote is open there. */
  predicate EventGrows(parse: Parser, c: Ctx, open: bool, e: Event, e': Event) {
    e == e' || (MoreText(e, e') && (c.Open? && c.named ==> KeepsWritten(parse, open, e, e')))
  }

  lemma WholeArgsGrow(parse: Parser, c: Ctx, s: State, x: string, y: string)
    requires Linked(c, s) && c.Open? && x <= y && CtxStep(c, ToolArgs(x)).Some? && CtxStep(c, ToolArgs(y)).Some?
    ensures Grows(StepArgs(s, x).result, StepArgs(s, y).result)
  {
    TrimTrailingAllMonotone(x, y);
    if IsWholeArgs(x) {
      assert IsWholeArgs(y);
      var m := StepArgs(s, x).result;
      GrowsReflexive(m);
      if s.current.LastTool? {
        LastCallChanges(m, Tool(s).(arguments := TrimTrailing(y, -1)));
        assert StepArgs(s, y).result
            == m.(calls := m.calls[|m.calls| - 1 := Tool(s).(arguments := TrimTrailing(y, -1))]);
      }
    } else {
      StepGrows(parse, c, s, ToolArgs(y));
    }
  }

  lemma PieceGrows(open: bool, r: Rendering, r': Rendering)
    requires RenderingGrows(open, r, r')
    ensures Piece(r, open) <= Piece(r', open)
  {
    if IsContent(r) && IsContent(r') {
      ContentGrows(open, r, r');
    }
  }

  predicate IsContent(r: Rendering) {
    r.Quoted? || r.Fresh?
  }

  lemma ContentGrows(open: bool, r: Rendering, r': Rendering)
    requires IsContent(r) && IsContent(r') && r.content <= r'.content && (open ==> (r.Fresh? <==> r'.Fresh?))
    ensures Piece(r, open) <= Piece(r', open)
  {
    EscapeMonotone(r.content, r'.content);
    PrefixCancel("\"", Escape(r.content), Escape(r'.content));
    var q := if open && r.Quoted? then "" else "\"";
    assert "" + Escape(r.content) == Escape(r.content) && "" + Escape(r'.content) == Escape(r'.content);
    assert Piece(r, open) == q + Escape(r.content) && Piece(r', open) == q + Escape(r'.content);
  }

  lemma ValuesGrow(parse: Parser, s: State, e: Event, e': Event)
    requires s.current.LastTool? && HasTool(s) && Tool(s).name != ""
    requires IsValue(e) && MoreText(e, e') && KeepsWritten(parse, s.quotePending, e, e')
    ensures Grows(Step(parse, s, e).result, Step(parse, s, e').result)
  {
    var r, r', open := Rendered(parse, e), Rendered(parse, e'), s.quotePending;
    ValueStep(parse, s, e);
    ValueStep(parse, s, e');
    if e.ArgStringValue? {
      StringsStreamIff(open, e.text, e'.text);
    } else {
      ValueStreamsIff(parse, open, e.text, e.partial, e'.text, e'.partial);
    }
    PieceGrows(open, r, r');
    NamedValueGrowsIff(s, r, r');
  }

  lemma StripsToEmpty(x: string, y: string)
    requires x <= y
    ensures var a, b := TrimTrailing(x, -1), TrimTrailing(y, -1);
            StripQuotes(b) == "" && StripQuotes(a) != "" <==> a == "\"" && b == "\"\""
  {
    TrimTrailingAllMonotone(x, y);
  }

  /** An id that grew in a visible call: only a lone quote that becomes an empty pair takes it back. */
  lemma IdsGrowIff(s: State, x: string, y: string)
    requires s.current.LastTool? && HasTool(s) && x <= y
    ensures Grows(StepId(s, x).result, StepId(s, y).result) <==>
            !(TrimTrailing(x, -1) == "\"" && TrimTrailing(y, -1) == "\"\"")
  {
    var m := StepId(s, x).result;
    var t := Tool(s).(id := StripQuotes(TrimTrailing(y, -1)));
    assert StepId(s, y).result == m.(calls := m.calls[|m.calls| - 1 := t]);
    LastCallChanges(m, t);
    StripsToEmpty(x, y);
  }

  /** A name that grew. */
  lemma NamesGrow(s: State, x: string, y: string)
    requires HasTool(s) && s.pending.Some? && x <= y
    ensures Grows(StepName(s, x).result, StepName(s, y).result)
  {
    TrimTrailingAllMonotone(x, y);
    var m := StepName(s, x).result;
    var t := StepName(s, y).result.calls[|s.result.calls|];
    assert StepName(s, y).result == m.(calls := m.calls[|m.calls| - 1 := t]);
    LastCallChanges(m, t);
  }

  /** Before a call is named, only its name shows. */
  lemma UnnamedIsHidden(parse: Parser, c: Ctx, s: State, e: Event)
    requires Linked(c, s) && c.Open? && !c.named && UsesTool(e) && !e.ToolName? && !e.ToolClose?
    ensures Step(parse, s, e).result == s.result
  {
  }

  lemma NamedNodeGrows(parse: Parser, c: Ctx, s: State, e: Event, e': Event)
    requires Linked(c, s) && CtxStep(c, e).Some? && CtxStep(c, e').Some? && UsesTool(e) && c.Open? && c.named
    requires MoreText(e, e') && KeepsWritten(parse, s.quotePending, e, e')
    ensures Grows(Step(parse, s, e).result, Step(parse, s, e').result)
  {
    if e.ToolArgs? {
      WholeArgsGrow(parse, c, s, e.text, e'.text);
    } else if e.ToolId? {
      IdsGrowIff(s, e.text, e'.text);
    } else if e.ArgName? {
      assert StepArgName(s, e.text) == StepArgName(s, e'.text);
      GrowsReflexive(Step(parse, s, e).result);
    } else {
      ValuesGrow(parse, s, e, e');
    }
  }

  lemma UnnamedNodeGrows(parse: Parser, c: Ctx, s: State, e: Event, e': Event)
    requires Linked(c, s) && UsesTool(e) && c.Open? && !c.named && MoreText(e, e')
    ensures Grows(Step(parse, s, e).result, Step(parse, s, e').result)
  {
    if e.ToolName? {
      NamesGrow(s, e.text, e'.text);
    } else {
      UnnamedIsHidden(parse, c, s, e);
      UnnamedIsHidden(parse, c, s, e');
      GrowsReflexive(s.result);
    }
  }

  lemma TextGrows(parse: Parser, s: State, e: Event, e': Event)
    requires (e.Content? || e.Reasoning?) && MoreText(e, e')
    ensures Grows(Step(parse, s, e).result, Step(parse, s, e').result)
  {
    GrowsReflexive(s.result);
    PrefixCancel(if e.Content? then s.result.content else s.result.reasoning, e.text, e'.text);
  }

  lemma GrownStepGrows(parse: Parser, c: Ctx, open: bool, s: State, e: Event, e': Event)
    requires Linked(c, s) && QuoteLinked(c, open, s)
    requires CtxStep(c, e).Some? && CtxStep(c, e').Some? && EventGrows(parse, c, open, e, e')
    ensures Defined(s, e) && Defined(s, e')
    ensures Grows(Step(parse, s, e).result, Step(parse, s, e').result)
  {
    if e == e' || !(UsesTool(e) && c.Open?) {
      if e != e' && (e.Content? || e.Reasoning?) {
        TextGrows(parse, s, e, e');
      } else {
        GrowsReflexive(Step(parse, s, e).result);
      }
    } else if c.named {
      NamedNodeGrows(parse, c, s, e, e');
    } else {
      UnnamedNodeGrows(parse, c, s, e, e');
    }
  }

  // ----- whole streams

  /** Nodes the mapper treats alike. */
  predicate SameEffect(e: Event, e': Event) {
    e == e' || (e.ToolArgs? && e'.ToolArgs? && !IsWholeArgs(e.text) && !IsWholeArgs(e'.text))
  }

  /** The seen nodes `es'` are what `es` become when more text arrives: the nodes before the last are the same
      to the mapper, the last may have grown, and more may follow. */
  predicate ExtendsSeen(parse: Parser, c: Ctx, open: bool, es: seq<Event>, es': seq<Event>)
    requires CtxRun(c, es).Some?
    decreases |es|
  {
    if es == [] then true
    else if es' == [] then false
    else if |es| == 1 then EventGrows(parse, c, open, es[0], es'[0])
    else
      && SameEffect(es[0], es'[0])
      && ExtendsSeen(parse, CtxStep(c, es[0]).value, QuoteStep(parse, open, es[0]), es[1..], es'[1..])
  }

  /** The nodes that are not looked at do not matter for being well-formed either. */
  lemma {:induction false} SeenCtx(c: Ctx, es: seq<Event>)
    ensures CtxRun(c, es) == CtxRun(c, Seen(es))
    decreases |es|
  {
    if es != [] {
      SeenHead(es);
      if CtxStep(c, es[0]).Some? {
        SeenCtx(CtxStep(c, es[0]).value, es[1..]);
      }
    }
  }

  /** The stream `es'` is what `es` becomes when more text arrives. Nodes without a tag, such as those of the
      grammar inside a growing node, may come and go anywhere. */
  predicate Extends(parse: Parser, es: seq<Event>, es': seq<Event>)
    requires WellFormed(es)
  {
    SeenCtx(Idle, es);
    ExtendsSeen(parse, Idle, false, Seen(es), Seen(es'))
  }

  lemma FinishKeepsGrowth(s: State, s': State)
    requires Inv(s) && Inv(s') && Grows(s.result, s'.result)
    ensures Grows(Finish(s), Finish(s'))
  {
    if !IsBlank(s.result.reasoning) {
      var i :| 0 <= i < |s.result.reasoning|
        && !(s.result.reasoning[i] == ' ' || s.result.reasoning[i] == '\n'
             || s.result.reasoning[i] == '\r' || s.result.reasoning[i] == '\t');
      assert s'.result.reasoning[i] == s.result.reasoning[i];
    }
  }

  lemma {:induction false} RunsGrow(parse: Parser, c: Ctx, open: bool, s: State, es: seq<Event>, es': seq<Event>)
    requires Linked(c, s) && QuoteLinked(c, open, s)
    requires CtxRun(c, es).Some? && CtxRun(c, es').Some? && ExtendsSeen(parse, c, open, es, es')
    ensures RunDefined(parse, s, es) && RunDefined(parse, s, es')
    ensures Grows(Run(parse, s, es).result, Run(parse, s, es').result)
    decreases |es|
  {
    RunGrows(parse, c, s, es);
    RunGrows(parse, c, s, es');
    if |es| == 1 {
      LastRunGrows(parse, c, open, s, es, es');
    } else if es != [] {
      var e, e' := es[0], es'[0];
      StepGrows(parse, c, s, e');
      QuoteFollows(parse, c, open, s, e');
      assert Step(parse, s, e) == Step(parse, s, e') && CtxStep(c, e) == CtxStep(c, e');
      assert QuoteStep(parse, open, e) == QuoteStep(parse, open, e');
      RunsGrow(parse, CtxStep(c, e').value, QuoteStep(parse, open, e'), Step(parse, s, e'), es[1..], es'[1..]);
    }
  }

  lemma LastRunGrows(parse: Parser, c: Ctx, open: bool, s: State, es: seq<Event>, es': seq<Event>)
    requires Linked(c, s) && QuoteLinked(c, open, s) && |es| == 1
    requires CtxRun(c, es).Some? && CtxRun(c, es').Some? && ExtendsSeen(parse, c, open, es, es')
    requires RunDefined(parse, s, es) && RunDefined(parse, s, es')
    ensures Grows(Run(parse, s, es).result, Run(parse, s, es').result)
  {
    var e, e' := es[0], es'[0];
    StepGrows(parse, c, s, e');
    GrownStepGrows(parse, c, open, s, e, e');
    assert es[1..] == [];
    assert Run(parse, s, es) == Step(parse, s, e);
    RunGrows(parse, CtxStep(c, e').value, Step(parse, s, e'), es'[1..]);
    GrowsTransitive(Step(parse, s, e).result, Step(parse, s, e').result, Run(parse, s, es').result);
  }

  lemma WellFormedRuns(parse: Parser, es: seq<Event>)
    requires WellFormed(es)
    ensures RunDefined(parse, INITIAL, es) && Inv(Run(parse, INITIAL, es))
  {
    RunGrows(parse, Idle, INITIAL, es);
  }

  /** The message for one pass over the nodes. */
  function ParseNodes(parse: Parser, es: seq<Event>): Message
    requires RunDefined(parse, INITIAL, es)
  {
    Finish(Run(parse, INITIAL, es))
  }

  /** Only the nodes that are looked at matter for the message. */
  lemma SeenParses(parse: Parser, es: seq<Event>)
    ensures RunDefined(parse, INITIAL, es) <==> RunDefined(parse, INITIAL, Seen(es))
    ensures RunDefined(parse, INITIAL, es) ==> ParseNodes(parse, es) == ParseNodes(parse, Seen(es))
  {
    SeenRuns(parse, INITIAL, es);
  }

  /** The mapper is monotone on well-formed streams. */
  lemma MapperMonotone(parse: Parser, es: seq<Event>, es': seq<Event>)
    requires WellFormed(es) && WellFormed(es') && Extends(parse, es, es')
    ensures RunDefined(parse, INITIAL, es) && RunDefined(parse, INITIAL, es')
    ensures Grows(ParseNodes(parse, es), ParseNodes(parse, es'))
  {
    SeenCtx(Idle, es);
    SeenCtx(Idle, es');
    WellFormedRuns(parse, Seen(es));
    WellFormedRuns(parse, Seen(es'));
    RunsGrow(parse, Idle, false, INITIAL, Seen(es), Seen(es'));
    FinishKeepsGrowth(Run(parse, INITIAL, Seen(es)), Run(parse, INITIAL, Seen(es')));
    SeenParses(parse, es);
    SeenParses(parse, es');
  }

  ghost predicate GrowingStreams(parse: Parser, streams: seq<seq<Event>>) {
    && (forall i :: 0 <= i < |streams| ==> WellFormed(streams[i]))
    && (forall i :: 0 < i < |streams| ==> Extends(parse, streams[i - 1], streams[i]))
  }

  /** The messages the client is told about, starting from the empty one. */
  function Messages(parse: Parser, streams: seq<seq<Event>>): (ms: seq<Message>)
    requires forall es :: es in streams ==> RunDefined(parse, INITIAL, es)
    ensures |ms| == |streams| + 1
    ensures forall i :: 0 <= i < |streams| ==> ms[i + 1] == ParseNodes(parse, streams[i])
    ensures ms[0] == EMPTY_MESSAGE
  {
    [EMPTY_MESSAGE] + seq(|streams|, i requires 0 <= i < |streams| => ParseNodes(parse, streams[i]))
  }

  lemma StreamsRun(parse: Parser, streams: seq<seq<Event>>)
    requires GrowingStreams(parse, streams)
    ensures forall es :: es in streams ==> RunDefined(parse, INITIAL, es)
  {
    forall es | es in streams
      ensures RunDefined(parse, INITIAL, es)
    {
      WellFormedRuns(parse, es);
    }
  }

  lemma MessagesGrow(parse: Parser, streams: seq<seq<Event>>)
    requires GrowingStreams(parse, streams)
    requires forall es :: es in streams ==> RunDefined(parse, INITIAL, es)
    ensures var ms := Messages(parse, streams); forall i :: 0 < i < |ms| ==> Grows(ms[i - 1], ms[i])
  {
    var ms := Messages(parse, streams);
    forall i | 0 < i < |ms|
      ensures Grows(ms[i - 1], ms[i])
    {
      if i == 1 {
        assert ms[0] == EMPTY_MESSAGE;
      } else {
        assert Extends(parse, streams[(i - 1) - 1], streams[i - 1]);
        MapperMonotone(parse, streams[i - 2], streams[i - 1]);
        assert ms[(i - 2) + 1] == ParseNodes(parse, streams[i - 2]);
        assert ms[(i - 1) + 1] == ParseNodes(parse, streams[i - 1]);
      }
    }
  }

  /** End to end: over any number of partial parses of a growing reply, the differ never throws, and the
      client that applies every delta to an empty message holds the last parse. */
  lemma StreamingRebuilds(parse: Parser, streams: seq<seq<Event>>)
    requires streams != [] && GrowingStreams(parse, streams)
    ensures forall es :: es in streams ==> RunDefined(parse, INITIAL, es)
    ensures ChatDiff.ChainDiffs(Messages(parse, streams)).Ok?
    ensures ChatDiff.ApplyAll(EMPTY_MESSAGE, ChatDiff.ChainDiffs(Messages(parse, streams)).value)
         == ParseNodes(parse, streams[|streams| - 1])
  {
    StreamsRun(parse, streams);
    var ms := Messages(parse, streams);
    MessagesGrow(parse, streams);
    ChatDiff.ChainRebuilds(ms);
    assert ms[(|streams| - 1) + 1] == ParseNodes(parse, streams[|streams| - 1]);
  }

  lemma {:induction false} CtxConcat(c: Ctx, a: seq<Event>, b: seq<Event>)
    requires CtxRun(c, a).Some?
    ensures CtxRun(c, a + b) == CtxRun(CtxRun(c, a).value, b)
    decreases |a|
  {
    if a == [] {
      assert a + b == b;
    } else {
      assert (a + b)[0] == a[0] && (a + b)[1..] == a[1..] + b;
      CtxConcat(CtxStep(c, a[0]).value, a[1..], b);
    }
  }

  lemma {:induction false} QuoteConcat(parse: Parser, open: bool, a: seq<Event>, b: seq<Event>)
    ensures QuoteRun(parse, open, a + b) == QuoteRun(parse, QuoteRun(parse, open, a), b)
    decreases |a|
  {
    if a == [] {
      assert a + b == b;
    } else {
      assert (a + b)[0] == a[0] && (a + b)[1..] == a[1..] + b;
      QuoteConcat(parse, QuoteStep(parse, open, a[0]), a[1..], b);
    }
  }

  /** The same nodes in front change nothing. */
  lemma {:induction false} ExtendsAfter(parse: Parser, c: Ctx, open: bool, head: seq<Event>, es: seq<Event>, es': seq<Event>)
    requires CtxRun(c, head).Some? && CtxRun(CtxRun(c, head).value, es).Some? && es != [] && es' != []
    ensures CtxRun(c, head + es).Some?
    ensures ExtendsSeen(parse, c, open, head + es, head + es') <==>
            ExtendsSeen(parse, CtxRun(c, head).value, QuoteRun(parse, open, head), es, es')
    decreases |head|
  {
    CtxConcat(c, head, es);
    if head == [] {
      assert head + es == es && head + es' == es';
    } else {
      assert (head + es)[0] == head[0] && (head + es)[1..] == head[1..] + es;
      assert (head + es')[0] == head[0] && (head + es')[1..] == head[1..] + es';
      ExtendsAfter(parse, CtxStep(c, head[0]).value, QuoteStep(parse, open, head[0]), head[1..], es, es');
    }
  }

  // ----- instances

  predicate NoOther(es: seq<Event>) {
    forall i :: 0 <= i < |es| ==> !es[i].Other?
  }

  lemma {:induction false} AllSeen(es: seq<Event>)
    requires NoOther(es)
    ensures Seen(es) == es
    decreases |es|
  {
    if es != [] {
      AllSeen(es[1..]);
    }
  }

  /** A stream that is cut off in its last node, and the same stream with more text in that node and more nodes
      after it. Inside the last node there may be others that are not looked at, each time. */
  lemma CutStreams(parse: Parser, head: seq<Event>, e: Event, e': Event, kids: seq<Event>, kids': seq<Event>, more: seq<Event>)
    requires NoOther(head + [e]) && NoOther(head + [e'] + more) && AllOther(kids) && AllOther(kids')
    requires WellFormed(head + [e]) && WellFormed(head + [e'] + more) && CtxRun(Idle, head).Some?
    requires EventGrows(parse, CtxRun(Idle, head).value, QuoteRun(parse, false, head), e, e')
    ensures GrowingStreams(parse, [head + [e] + kids, head + [e'] + kids' + more])
  {
    var a, b := head + [e] + kids, head + [e'] + kids' + more;
    assert a + [] == a && head + [e] + [] == head + [e];
    CutSeen(head + [e], kids, []);
    CutSeen(head + [e'], kids', more);
    SeenCtx(Idle, a);
    SeenCtx(Idle, b);
    ExtendsLast(parse, head, e, e', more);
    TwoStreams(parse, a, b);
  }

  lemma TwoStreams(parse: Parser, a: seq<Event>, b: seq<Event>)
    requires WellFormed(a) && WellFormed(b) && Extends(parse, a, b)
    ensures GrowingStreams(parse, [a, b])
  {
  }

  lemma NoOtherParts(a: seq<Event>, b: seq<Event>)
    requires NoOther(a + b)
    ensures NoOther(a) && NoOther(b)
  {
    assert forall i :: 0 <= i < |a| ==> a[i] == (a + b)[i];
    assert forall i :: 0 <= i < |b| ==> b[i] == (a + b)[|a| + i];
  }

  lemma SeenParts(a: seq<Event>, kids: seq<Event>, b: seq<Event>)
    requires AllOther(kids)
    ensures Seen(a + kids + b) == Seen(a) + Seen(b)
  {
    SeenConcat(a + kids, b);
    SeenWithOthers(a, kids);
  }

  lemma CutSeen(head: seq<Event>, kids: seq<Event>, more: seq<Event>)
    requires NoOther(head + more) && AllOther(kids)
    ensures Seen(head + kids + more) == head + more
  {
    NoOtherParts(head, more);
    SeenParts(head, kids, more);
    AllSeen(head);
    AllSeen(more);
  }

  lemma ExtendsLast(parse: Parser, head: seq<Event>, e: Event, e': Event, more: seq<Event>)
    requires CtxRun(Idle, head).Some? && CtxRun(Idle, head + [e]).Some?
    requires EventGrows(parse, CtxRun(Idle, head).value, QuoteRun(parse, false, head), e, e')
    ensures ExtendsSeen(parse, Idle, false, head + [e], head + [e'] + more)
  {
    CtxConcat(Idle, head, [e]);
    ExtendsAfter(parse, Idle, false, head, [e], [e'] + more);
    assert head + ([e'] + more) == head + [e'] + more;
  }

  /** A call whose string argument is cut off anywhere, then completed and closed. */
  lemma CallStreams(parse: Parser, name: string, key: string, x: string, y: string)
    requires TrimTrailing(name, -1) != "" && x <= y
    ensures var head := [ToolOpen, ToolName(name), ArgOpen, ArgName(key)];
            GrowingStreams(parse, [head + [ArgStringValue(x)], head + [ArgStringValue(y), ArgClose, ToolClose]])
  {
    var head, more := [ToolOpen, ToolName(name), ArgOpen, ArgName(key)], [ArgClose, ToolClose];
    CallHead(parse, name, key);
    CtxConcat(Idle, head, [ArgStringValue(x)]);
    CtxConcat(Idle, head, [ArgStringValue(y), ArgClose, ToolClose]);
    CallTail(x);
    CallTail(y);
    assert head + [ArgStringValue(y)] + more == head + [ArgStringValue(y), ArgClose, ToolClose];
    assert head + [ArgStringValue(y)] + [] + more == head + [ArgStringValue(y)] + more;
    assert head + [ArgStringValue(x)] + [] == head + [ArgStringValue(x)];
    CutStreams(parse, head, ArgStringValue(x), ArgStringValue(y), [], [], more);
  }

  lemma CallHead(parse: Parser, name: string, key: string)
    requires TrimTrailing(name, -1) != ""
    ensures CtxRun(Idle, [ToolOpen, ToolName(name), ArgOpen, ArgName(key)]) == Some(Open(true, false, true))
    ensures !QuoteRun(parse, false, [ToolOpen, ToolName(name), ArgOpen, ArgName(key)])
  {
    var es := [ToolOpen, ToolName(name), ArgOpen, ArgName(key)];
    assert es[1..] == [ToolName(name), ArgOpen, ArgName(key)] && es[1..][1..] == [ArgOpen, ArgName(key)];
    assert [ArgOpen, ArgName(key)][1..] == [ArgName(key)] && [ArgName(key)][1..] == [];
    assert CtxRun(Open(true, false, false), [ArgName(key)]) == Some(Open(true, false, true));
    assert CtxRun(Open(true, false, false), [ArgOpen, ArgName(key)]) == Some(Open(true, false, true));
    assert !QuoteRun(parse, false, [ArgName(key)]) && !QuoteRun(parse, false, [ArgOpen, ArgName(key)]);
  }

  lemma CallTail(x: string)
    ensures CtxRun(Open(true, false, true), [ArgStringValue(x)]).Some?
    ensures CtxRun(Open(true, false, true), [ArgStringValue(x), ArgClose, ToolClose]).Some?
  {
    assert [ArgStringValue(x)][1..] == [];
    assert [ArgStringValue(x), ArgClose, ToolClose][1..] == [ArgClose, ToolClose];
    assert [ArgClose, ToolClose][1..] == [ToolClose] && [ToolClose][1..] == [];
    assert CtxRun(Open(true, false, true), [ToolClose]) == Some(Closed);
  }

  /** A call with a JSON object of arguments that is cut off anywhere, then completed and closed. The JSON
      grammar leaves nodes without a tag after the arguments in every pass. */
  lemma JsonCallStreams(parse: Parser, name: string, x: string, y: string, kids: seq<Event>, kids': seq<Event>)
    requires TrimTrailing(name, -1) != "" && x <= y && AllOther(kids) && AllOther(kids')
    ensures var head := [ToolOpen, ToolName(name)];
            GrowingStreams(parse, [head + [ToolArgs(x)] + kids, head + [ToolArgs(y)] + kids' + [ToolClose]])
  {
    var head := [ToolOpen, ToolName(name)];
    assert head[1..] == [ToolName(name)] && [ToolName(name)][1..] == [];
    assert CtxRun(Open(false, false, false), [ToolName(name)]) == Some(Open(true, false, false));
    JsonCallTail(x);
    JsonCallTail(y);
    CtxConcat(Idle, head, [ToolArgs(x)]);
    CtxConcat(Idle, head, [ToolArgs(y), ToolClose]);
    assert head + [ToolArgs(y)] + [ToolClose] == head + [ToolArgs(y), ToolClose];
    CutStreams(parse, head, ToolArgs(x), ToolArgs(y), kids, kids', [ToolClose]);
  }

  lemma JsonCallTail(x: string)
    ensures CtxRun(Open(true, false, false), [ToolArgs(x)]).Some?
    ensures CtxRun(Open(true, false, false), [ToolArgs(x), ToolClose]).Some?
  {
    var c := CtxStep(Open(true, false, false), ToolArgs(x)).value;
    assert [ToolArgs(x)][1..] == [] && [ToolArgs(x), ToolClose][1..] == [ToolClose] && [ToolClose][1..] == [];
    assert CtxRun(c, [ToolClose]) == Some(Closed);
  }
}
