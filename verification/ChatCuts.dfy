/** What happens to the message when the last node of a cut-off stream gets more text: exactly when the
    message grows, exactly when the differ throws, and the inputs on which streaming fails. */
module ChatCuts {
  import opened Wrappers
  import opened ChatMessage
  import opened JsonText
  import opened ChatMapper
  import opened ChatStreaming
  import ChatDiff
  import QuoteNormalizer
  import JsonSyntax

  // ----- values

  /** Raw values are not empty and do not look like strings, and a literal says something. */
  predicate Proper(r: Rendering) {
    (r.Raw? ==> r.text != "" && r.text[0] != '"') && (r.Quoted? ==> r.content != "")
  }

  lemma EscapeHead(s: string)
    requires s != ""
    ensures Escape(s) != "" && Escape(s)[0] != '"'
  {
    assert Escape(s)[0] == EscapeChar(s[0])[0];
  }

  lemma ContentsGrowIff(q: string, a: string, b: string)
    ensures q + Escape(a) <= q + Escape(b) <==> a <= b
  {
    PrefixCancel(q, Escape(a), Escape(b));
    EscapePrefixIff(a, b);
  }

  lemma NoQuoteInFront(s: string)
    ensures "" + Escape(s) == Escape(s)
  {
  }

  lemma ContentPiecesIff(open: bool, r: Rendering, r': Rendering)
    requires Proper(r) && Proper(r') && IsContent(r) && IsContent(r')
    ensures Piece(r, open) <= Piece(r', open) <==> RenderingGrows(open, r, r')
  {
    var q := if open && r.Quoted? then "" else "\"";
    NoQuoteInFront(r.content);
    NoQuoteInFront(r'.content);
    ContentsGrowIff(q, r.content, r'.content);
    if open && r.Quoted? {
      EscapeHead(r.content);
    }
    if open && r'.Quoted? {
      EscapeHead(r'.content);
    }
  }

  /** What is written for the one begins what is written for the other exactly by the rule on renderings. */
  lemma PieceGrowsIff(open: bool, r: Rendering, r': Rendering)
    requires Proper(r) && Proper(r')
    ensures Piece(r, open) <= Piece(r', open) <==> RenderingGrows(open, r, r')
  {
    if IsContent(r) && IsContent(r') {
      ContentPiecesIff(open, r, r');
    } else if open && r.Quoted? {
      EscapeHead(r.content);
      NoQuoteInFront(r.content);
    } else if open && r'.Quoted? {
      NoQuoteInFront(r'.content);
    }
  }

  lemma NormalizedHead(v: string)
    requires v != ""
    ensures Normalized(v) != "" && Normalized(v)[0] == v[0]
  {
  }

  lemma RenderedProper(parse: Parser, e: Event)
    requires IsValue(e) && (e.ArgValue? ==> AcceptsJson(parse))
    ensures Proper(Rendered(parse, e))
  {
    var v := TrimValue(e.text);
    if v != "" {
      NormalizedHead(v);
      if e.ArgValue? && parse(Normalized(v)).OtherValue? {
        JsonSyntax.OtherJsonHead(Normalized(v));
      }
    }
  }

  /** In a named call, a value that got more text grows the message exactly when the rule on texts and the
      parser's verdicts allows it. */
  lemma ValueGrowsIff(parse: Parser, s: State, e: Event, e': Event)
    requires s.current.LastTool? && HasTool(s) && Tool(s).name != ""
    requires IsValue(e) && MoreText(e, e') && (e.ArgValue? ==> AcceptsJson(parse))
    ensures Grows(Step(parse, s, e).result, Step(parse, s, e').result) <==> KeepsWritten(parse, s.quotePending, e, e')
  {
    var r, r', open := Rendered(parse, e), Rendered(parse, e'), s.quotePending;
    ValueStep(parse, s, e);
    ValueStep(parse, s, e');
    RenderedProper(parse, e);
    RenderedProper(parse, e');
    PieceGrowsIff(open, r, r');
    NamedValueGrowsIff(s, r, r');
    if e.ArgStringValue? {
      StringsStreamIff(open, e.text, e'.text);
    } else {
      ValueStreamsIff(parse, open, e.text, e.partial, e'.text, e'.partial);
    }
  }

  // ----- keys

  /** The quote after an escaped text ends it. */
  lemma {:induction false} QuoteEnds(x: string, y: string, a: string, b: string)
    requires Escape(x) + ("\"" + a) <= Escape(y) + ("\"" + b)
    ensures x == y
    decreases |x|
  {
    var p, q := Escape(x) + ("\"" + a), Escape(y) + ("\"" + b);
    assert p[0] == q[0];
    if x != "" {
      EscapeHead(x);
      assert p[0] == Escape(x)[0];
    }
    if y != "" {
      EscapeHead(y);
      assert q[0] == Escape(y)[0];
    }
    if x != "" && y != "" {
      QuoteEndsStep(x, y, a, b);
      QuoteEnds(x[1..], y[1..], a, b);
    }
  }

  lemma Regroup(a: string, b: string, c: string)
    ensures a + b + c == a + (b + c)
  {
  }

  lemma QuoteEndsStep(x: string, y: string, a: string, b: string)
    requires x != "" && y != "" && Escape(x) + ("\"" + a) <= Escape(y) + ("\"" + b)
    ensures x[0] == y[0] && Escape(x[1..]) + ("\"" + a) <= Escape(y[1..]) + ("\"" + b)
  {
    Regroup(EscapeChar(x[0]), Escape(x[1..]), "\"" + a);
    Regroup(EscapeChar(y[0]), Escape(y[1..]), "\"" + b);
    EscapeCharPrefixFree(x[0], y[0], Escape(x[1..]) + ("\"" + a), Escape(y[1..]) + ("\"" + b));
    PrefixCancel(EscapeChar(x[0]), Escape(x[1..]) + ("\"" + a), Escape(y[1..]) + ("\"" + b));
  }

  lemma QuoteColonIff(a: string, b: string)
    ensures Quote(a) + ":" <= Quote(b) + ":" <==> a == b
  {
    var p, q := Escape(a) + ("\"" + ":"), Escape(b) + ("\"" + ":");
    assert Quote(a) + ":" == "\"" + p && Quote(b) + ":" == "\"" + q;
    PrefixCancel("\"", p, q);
    if p <= q {
      QuoteEnds(a, b, ":", ":");
    }
  }

  lemma KeyTextIff(n: nat, x: string, y: string)
    ensures KeyText(n, x) <= KeyText(n, y) <==> TrimKey(x) == TrimKey(y)
  {
    var sep := if n > 0 then "," else "";
    var a, b := Quote(TrimKey(x)), Quote(TrimKey(y));
    Regroup(sep, a, ":");
    Regroup(sep, b, ":");
    PrefixCancel(sep, a + ":", b + ":");
    QuoteColonIff(TrimKey(x), TrimKey(y));
  }

  lemma KeyedCalls(s: State, x: string, y: string)
    requires s.current.LastTool? && HasTool(s) && Tool(s).name != ""
    ensures var m, target := StepArgName(s, x).result, if Target(s) == "" then "{" else Target(s);
            && m.calls != []
            && m.calls[|m.calls| - 1] == Tool(s).(arguments := target + KeyText(s.argCount, x))
            && StepArgName(s, y).result == m.(calls := m.calls[|m.calls| - 1 :=
                 Tool(s).(arguments := target + KeyText(s.argCount, y))])
  {
  }

  /** A key that got more text grows the message of a named call exactly when it is the same key. */
  lemma KeysGrowIff(s: State, x: string, y: string)
    requires s.current.LastTool? && HasTool(s) && Tool(s).name != ""
    ensures Grows(StepArgName(s, x).result, StepArgName(s, y).result) <==> TrimKey(x) == TrimKey(y)
  {
    var target := if Target(s) == "" then "{" else Target(s);
    KeyedCalls(s, x, y);
    LastCallChanges(StepArgName(s, x).result, Tool(s).(arguments := target + KeyText(s.argCount, y)));
    PrefixCancel(target, KeyText(s.argCount, x), KeyText(s.argCount, y));
    KeyTextIff(s.argCount, x, y);
  }

  // ----- any last node

  lemma NamedArgumentGrowsIff(parse: Parser, s: State, e: Event, e': Event)
    requires s.current.LastTool? && HasTool(s) && Tool(s).name != ""
    requires (e.ArgName? || IsValue(e)) && MoreText(e, e') && (e.ArgValue? ==> AcceptsJson(parse))
    ensures Grows(Step(parse, s, e).result, Step(parse, s, e').result) <==> KeepsWritten(parse, s.quotePending, e, e')
  {
    if e.ArgName? {
      KeysGrowIff(s, e.text, e'.text);
    } else {
      ValueGrowsIff(parse, s, e, e');
    }
  }

  lemma NamedNodeGrowsIff(parse: Parser, c: Ctx, s: State, e: Event, e': Event)
    requires Linked(c, s) && c.Open? && c.named && (e.ArgValue? ==> AcceptsJson(parse))
    requires CtxStep(c, e).Some? && CtxStep(c, e').Some? && UsesTool(e) && MoreText(e, e')
    ensures Grows(Step(parse, s, e).result, Step(parse, s, e').result) <==> KeepsWritten(parse, s.quotePending, e, e')
  {
    if e.ToolArgs? {
      WholeArgsGrow(parse, c, s, e.text, e'.text);
    } else if e.ToolId? {
      IdsGrowIff(s, e.text, e'.text);
    } else {
      NamedArgumentGrowsIff(parse, s, e, e');
    }
  }

  lemma FinishDecides(s: State, s': State)
    requires Inv(s) && Inv(s') && s.result.reasoning == s'.result.reasoning
    ensures Grows(Finish(s), Finish(s')) <==> Grows(s.result, s'.result)
  {
  }

  /** A stream with one more node. */
  lemma OneMoreNode(parse: Parser, es: seq<Event>, e: Event) returns (s: State, t: State)
    requires WellFormed(es) && CtxStep(CtxRun(Idle, es).value, e).Some?
    ensures RunDefined(parse, INITIAL, es) && s == Run(parse, INITIAL, es) && Linked(CtxRun(Idle, es).value, s)
    ensures QuoteLinked(CtxRun(Idle, es).value, QuoteRun(parse, false, es), s)
    ensures Defined(s, e) && t == Step(parse, s, e) && Inv(t)
    ensures RunDefined(parse, INITIAL, es + [e]) && ParseNodes(parse, es + [e]) == Finish(t)
    ensures UsesTool(e) ==> t.result.reasoning == s.result.reasoning
  {
    RunGrows(parse, Idle, INITIAL, es);
    QuoteRunFollows(parse, Idle, false, INITIAL, es);
    s := Run(parse, INITIAL, es);
    StepGrows(parse, CtxRun(Idle, es).value, s, e);
    SingleRun(parse, s, e);
    RunConcat(parse, INITIAL, es, [e]);
    t := Step(parse, s, e);
    if UsesTool(e) {
      ReasoningStays(parse, s, e);
    }
  }

  lemma ReasoningStays(parse: Parser, s: State, e: Event)
    requires Defined(s, e) && UsesTool(e)
    ensures Step(parse, s, e).result.reasoning == s.result.reasoning
  {
  }

  lemma CutNodeGrows(parse: Parser, es: seq<Event>, e: Event, e': Event)
    requires WellFormed(es) && CtxStep(CtxRun(Idle, es).value, e).Some? && CtxStep(CtxRun(Idle, es).value, e').Some?
    requires EventGrows(parse, CtxRun(Idle, es).value, QuoteRun(parse, false, es), e, e')
    ensures RunDefined(parse, INITIAL, es + [e]) && RunDefined(parse, INITIAL, es + [e'])
    ensures Grows(ParseNodes(parse, es + [e]), ParseNodes(parse, es + [e']))
  {
    var s, t := OneMoreNode(parse, es, e);
    var _, t' := OneMoreNode(parse, es, e');
    GrownStepGrows(parse, CtxRun(Idle, es).value, QuoteRun(parse, false, es), s, e, e');
    FinishKeepsGrowth(t, t');
  }

  lemma CutNodeGrowsIff(parse: Parser, es: seq<Event>, e: Event, e': Event)
    requires WellFormed(es) && MoreText(e, e') && (e.ArgValue? ==> AcceptsJson(parse))
    requires CtxStep(CtxRun(Idle, es).value, e).Some? && CtxStep(CtxRun(Idle, es).value, e').Some?
    ensures RunDefined(parse, INITIAL, es + [e]) && RunDefined(parse, INITIAL, es + [e'])
    ensures Grows(ParseNodes(parse, es + [e]), ParseNodes(parse, es + [e'])) <==>
            EventGrows(parse, CtxRun(Idle, es).value, QuoteRun(parse, false, es), e, e')
  {
    var c := CtxRun(Idle, es).value;
    if EventGrows(parse, c, QuoteRun(parse, false, es), e, e') {
      CutNodeGrows(parse, es, e, e');
    } else {
      var s, t := OneMoreNode(parse, es, e);
      var _, t' := OneMoreNode(parse, es, e');
      FinishDecides(t, t');
      NamedNodeGrowsIff(parse, c, s, e, e');
    }
  }

  /** `a` is a pass whose seen nodes end in `e` after `es`. */
  predicate EndsIn(a: seq<Event>, es: seq<Event>, e: Event) {
    Seen(a) == es + [e] && WellFormed(es) && CtxStep(CtxRun(Idle, es).value, e).Some?
  }

  /** The exact rule for every kind of node and every well-formed stream: when the last node that is looked at
      gets more text, the message grows if and only if the node may grow that way. */
  lemma LastNodeStreamsIff(parse: Parser, a: seq<Event>, a': seq<Event>, es: seq<Event>, e: Event, e': Event)
    requires EndsIn(a, es, e) && EndsIn(a', es, e') && MoreText(e, e') && (e.ArgValue? ==> AcceptsJson(parse))
    ensures RunDefined(parse, INITIAL, a) && RunDefined(parse, INITIAL, a')
    ensures Grows(ParseNodes(parse, a), ParseNodes(parse, a')) <==>
            EventGrows(parse, CtxRun(Idle, es).value, QuoteRun(parse, false, es), e, e')
  {
    CutNodeGrowsIff(parse, es, e, e');
    SeenParses(parse, a);
    SeenParses(parse, a');
  }

  predicate InNamedCall(es: seq<Event>) {
    WellFormed(es) && CtxRun(Idle, es).value.Open? && CtxRun(Idle, es).value.named
  }

  /** In particular for an undeclared value in a named call. */
  lemma CutValueStreamsIff(parse: Parser, es: seq<Event>, x: string, xPartial: bool, y: string, yPartial: bool)
    requires AcceptsJson(parse) && InNamedCall(es) && x <= y
    ensures var e, e' := ArgValue(x, xPartial), ArgValue(y, yPartial);
            && RunDefined(parse, INITIAL, es + [e]) && RunDefined(parse, INITIAL, es + [e'])
            && (Grows(ParseNodes(parse, es + [e]), ParseNodes(parse, es + [e'])) <==>
                ValueStreams(parse, QuoteRun(parse, false, es), x, xPartial, y, yPartial))
  {
    CutNodeGrowsIff(parse, es, ArgValue(x, xPartial), ArgValue(y, yPartial));
    if x == y && xPartial == yPartial {
      ValueStreamsIff(parse, QuoteRun(parse, false, es), x, xPartial, y, yPartial);
    }
  }

  // ----- when the differ throws

  /** Two passes that differ only in what the value of the last call adds to its arguments. */
  lemma ValuePassesThrowIff(s: State, r: Rendering, r': Rendering)
    requires Inv(s) && s.current.LastTool? && HasTool(s) && Tool(s).name != ""
    ensures ChatDiff.Diffs(Finish(StepValue(s, r)), Finish(StepValue(s, r'))).Throw? <==>
            !ChatDiff.Comparable(Piece(r, s.quotePending), Piece(r', s.quotePending))
  {
    var q := s.quotePending;
    NamedValues(s, r, r');
    NamedValues(s, r', r);
    PrefixCancel(Target(s), Piece(r, q), Piece(r', q));
    PrefixCancel(Target(s), Piece(r', q), Piece(r, q));
    ChatDiff.DiffsThrowIff(Finish(StepValue(s, r)), Finish(StepValue(s, r')));
  }

  /** What was written for the longer text begins what was written for the shorter: nothing is thrown, and
      nothing is taken back. */
  predicate SaysLess(parse: Parser, open: bool, x: string, xPartial: bool, y: string, yPartial: bool) {
    var v, w := TrimValue(x), TrimValue(y);
    var jsonV, jsonW := IsJsonString(parse, v), IsJsonString(parse, w);
    if IsRaw(parse, v, xPartial) == IsRaw(parse, w, yPartial) then
      !IsRaw(parse, v, xPartial) && (open ==> jsonV == jsonW) && Said(parse, w) <= Said(parse, v)
    else
      && open && !jsonV && !jsonW
      && if IsRaw(parse, v, xPartial) then Escape(Normalized(w)) <= Normalized(v)
         else Normalized(w) <= Escape(Normalized(v))
  }

  lemma {:induction false} NormalizeLonger(mode: QuoteNormalizer.Mode, x: string, y: string)
    requires x <= y
    ensures |QuoteNormalizer.Normalize(mode, x)| <= |QuoteNormalizer.Normalize(mode, y)|
    decreases |x|
  {
    if x == "\\" && x != y {
      assert QuoteNormalizer.Normalize(mode, x) == "\\" by { assert x[1..] == ""; }
    } else if x != "" && x != y {
      assert x[0] == y[0] && (|x| > 1 ==> x[1] == y[1]);
      var m := QuoteNormalizer.Step(mode, x);
      assert QuoteNormalizer.Step(mode, y) == m;
      NormalizeLonger(m.mode, x[m.taken..], y[m.taken..]);
    }
  }

  /** With more text a raw value is never the shorter one. */
  lemma RawReversed(v: string, w: string)
    requires v <= w && v != "" && Normalized(w) <= Normalized(v)
    ensures Normalized(v) <= Normalized(w)
  {
    assert v[0] == w[0];
    NormalizeLonger(QuoteNormalizer.Outside, v, w);
  }

  lemma ReversedIff(parse: Parser, open: bool, x: string, xPartial: bool, y: string, yPartial: bool)
    requires x <= y && TrimValue(x) != ""
    requires !ValueStreams(parse, open, x, xPartial, y, yPartial)
    ensures RenderingGrows(open, RenderValue(parse, y, yPartial), RenderValue(parse, x, xPartial)) <==>
            SaysLess(parse, open, x, xPartial, y, yPartial)
  {
    TrimValueMonotone(x, y);
    var v, w := TrimValue(x), TrimValue(y);
    NormalizedGrowsIff(v, w);
    RenderingIs(parse, x, xPartial);
    RenderingIs(parse, y, yPartial);
    if Normalized(w) <= Normalized(v) {
      RawReversed(v, w);
    }
  }

  /** The differ throws exactly when the value does not stream and the longer text does not just say less. */
  lemma CutValueThrowsIff(parse: Parser, es: seq<Event>, x: string, xPartial: bool, y: string, yPartial: bool)
    requires AcceptsJson(parse) && InNamedCall(es) && x <= y
    ensures var e, e', open := ArgValue(x, xPartial), ArgValue(y, yPartial), QuoteRun(parse, false, es);
            && RunDefined(parse, INITIAL, es + [e]) && RunDefined(parse, INITIAL, es + [e'])
            && (ChatDiff.Diffs(ParseNodes(parse, es + [e]), ParseNodes(parse, es + [e'])).Throw? <==>
                !ValueStreams(parse, open, x, xPartial, y, yPartial) && !SaysLess(parse, open, x, xPartial, y, yPartial))
  {
    var e, e' := ArgValue(x, xPartial), ArgValue(y, yPartial);
    var s, t := OneMoreNode(parse, es, e);
    var _, t' := OneMoreNode(parse, es, e');
    ValueStep(parse, s, e);
    ValueStep(parse, s, e');
    ValuePassesThrowIff(s, Rendered(parse, e), Rendered(parse, e'));
    ComparableIff(parse, s.quotePending, x, xPartial, y, yPartial);
  }

  lemma ComparableIff(parse: Parser, open: bool, x: string, xPartial: bool, y: string, yPartial: bool)
    requires AcceptsJson(parse) && x <= y
    ensures ChatDiff.Comparable(Piece(RenderValue(parse, x, xPartial), open), Piece(RenderValue(parse, y, yPartial), open))
       <==> ValueStreams(parse, open, x, xPartial, y, yPartial) || SaysLess(parse, open, x, xPartial, y, yPartial)
  {
    var r, r' := RenderValue(parse, x, xPartial), RenderValue(parse, y, yPartial);
    RenderedProper(parse, ArgValue(x, xPartial));
    RenderedProper(parse, ArgValue(y, yPartial));
    PieceGrowsIff(open, r, r');
    PieceGrowsIff(open, r', r);
    ValueStreamsIff(parse, open, x, xPartial, y, yPartial);
    if !ValueStreams(parse, open, x, xPartial, y, yPartial) {
      ReversedIff(parse, open, x, xPartial, y, yPartial);
    } else {
      PieceGrows(open, r, r');
    }
  }

  // ----- inputs on which streaming fails

  function CallUpTo(name: string, key: string, e: Event): seq<Event> {
    [ToolOpen, ToolName(name), ArgOpen, ArgName(key)] + [e]
  }

  /** The message does not grow from one pass to the next, and the differ throws. */
  ghost predicate Breaks(parse: Parser, es: seq<Event>, es': seq<Event>) {
    && RunDefined(parse, INITIAL, es) && RunDefined(parse, INITIAL, es')
    && !Grows(ParseNodes(parse, es), ParseNodes(parse, es'))
    && ChatDiff.Diffs(ParseNodes(parse, es), ParseNodes(parse, es')).Throw?
  }

  /** Nodes that are not looked at do not matter for that. */
  lemma BreaksSeen(parse: Parser, a: seq<Event>, a': seq<Event>)
    ensures Breaks(parse, a, a') <==> Breaks(parse, Seen(a), Seen(a'))
  {
    SeenParses(parse, a);
    SeenParses(parse, a');
  }

  lemma CutValueBreaks(parse: Parser, name: string, key: string, x: string, y: string)
    requires AcceptsJson(parse) && TrimTrailing(name, -1) != "" && x <= y
    requires !ValueStreams(parse, false, x, true, y, true) && !SaysLess(parse, false, x, true, y, true)
    ensures Breaks(parse, CallUpTo(name, key, ArgValue(x, true)), CallUpTo(name, key, ArgValue(y, true)))
  {
    var head := [ToolOpen, ToolName(name), ArgOpen, ArgName(key)];
    CallHead(parse, name, key);
    CutValueStreamsIff(parse, head, x, true, y, true);
    CutValueThrowsIff(parse, head, x, true, y, true);
  }

  lemma NoTrim(s: string)
    requires s != "" && !IsSpace(s[0]) && !IsSpace(s[|s| - 1])
    ensures TrimValue(s) == s
  {
    TrimLeadingOne(s);
    TrimTrailingOne(s);
  }

  /** A value that was passed on and turns out to be the start of a literal. */
  lemma RawBecomesLiteral(parse: Parser, name: string, key: string, x: string, y: string)
    requires AcceptsJson(parse) && TrimTrailing(name, -1) != "" && x <= y && TrimValue(x) == x && TrimValue(y) == y
    requires x != "" && !IsContainer(y) && parse(x).OtherValue? && parse(y).Invalid?
    ensures Breaks(parse, CallUpTo(name, key, ArgValue(x, true)), CallUpTo(name, key, ArgValue(y, true)))
  {
    assert x[0] == y[0];
    assert Normalized(x) == x && Normalized(y) == y;
    CutValueBreaks(parse, name, key, x, y);
  }

  /** A number that turns out to be the start of a word has already been written without its quote. */
  lemma NumberDoesNotStream(name: string, key: string)
    requires TrimTrailing(name, -1) != ""
    ensures var parse := v => if v == "12" then OtherValue else Invalid;
            && AcceptsJson(parse)
            && Breaks(parse, CallUpTo(name, key, ArgValue("12", true)), CallUpTo(name, key, ArgValue("12a", true)))
  {
    var parse: Parser := v => if v == "12" then OtherValue else Invalid;
    NoTrim("12");
    NoTrim("12a");
    JsonSyntax.NumberIsJson("12");
    RawBecomesLiteral(parse, name, key, "12", "12a");
  }

  /** A JSON string in an undeclared argument, cut before its closing quote, has been written as a literal
      that begins with a quote of its own. */
  lemma CutJsonStringDoesNotStream(parse: Parser, name: string, key: string, a: string)
    requires AcceptsJson(parse) && TrimTrailing(name, -1) != ""
    requires a != "" && a[0] != '"' && !IsSpace(a[|a| - 1])
    requires parse("\"" + a).Invalid? && parse("\"" + a + "\"") == StringValue(a)
    ensures Breaks(parse, CallUpTo(name, key, ArgValue("\"" + a, true)),
                   CallUpTo(name, key, ArgValue("\"" + a + "\"", true)))
  {
    var x, y := "\"" + a, "\"" + a + "\"";
    NoTrim(x);
    NoTrim(y);
    assert Said(parse, x)[0] != Said(parse, y)[0];
    CutValueBreaks(parse, name, key, x, y);
  }

  /** A list of Python strings cut inside an escaped quote has already been written with a backslash
      that the longer text drops. */
  lemma EscapedQuoteDoesNotStream(parse: Parser, name: string, key: string)
    requires AcceptsJson(parse) && TrimTrailing(name, -1) != ""
    requires parse("[\"a\\").Invalid? && parse("[\"a'").Invalid?
    ensures Breaks(parse, CallUpTo(name, key, ArgValue("['a\\", true)), CallUpTo(name, key, ArgValue("['a\\'", true)))
  {
    var x, y := "['a\\", "['a\\'";
    NoTrim(x);
    NoTrim(y);
    HalfEscapeExample();
    assert Normalized(x) == "[\"a\\" && Normalized(y) == "[\"a'";
    assert Normalized(x)[3] != Normalized(y)[3];
    NormalizedGrowsIff(x, y);
    CutValueBreaks(parse, name, key, x, y);
  }

  lemma HalfEscapeExample()
    ensures QuoteNormalizer.Normalize(QuoteNormalizer.Outside, "['a\\") == "[\"a\\"
    ensures QuoteNormalizer.Normalize(QuoteNormalizer.Outside, "['a\\'") == "[\"a'"
  {
    CutList();
    LongerList();
  }

  lemma CutList()
    ensures QuoteNormalizer.Normalize(QuoteNormalizer.Outside, "['a\\") == "[\"a\\"
  {
    assert "\\"[1..] == "";
    assert QuoteNormalizer.Normalize(QuoteNormalizer.Single, "\\") == "\\";
    ListOfOne("\\", "\\");
    assert ['['] + (['\''] + (['a'] + "\\")) == "['a\\" && ['['] + ("\"" + (['a'] + "\\")) == "[\"a\\";
  }

  lemma LongerList()
    ensures QuoteNormalizer.Normalize(QuoteNormalizer.Outside, "['a\\'") == "[\"a'"
  {
    assert "\\'"[2..] == "";
    assert QuoteNormalizer.Normalize(QuoteNormalizer.Single, "\\'") == "'";
    ListOfOne("\\'", "'");
    assert ['['] + (['\''] + (['a'] + "\\'")) == "['a\\'" && ['['] + ("\"" + (['a'] + "'")) == "[\"a'";
  }

  lemma ListOfOne(rest: string, out: string)
    requires QuoteNormalizer.Normalize(QuoteNormalizer.Single, rest) == out
    ensures QuoteNormalizer.Normalize(QuoteNormalizer.Outside, ['['] + (['\''] + (['a'] + rest)))
         == ['['] + ("\"" + (['a'] + out))
  {
    QuoteNormalizer.NormalizePlain(QuoteNormalizer.Single, 'a', rest);
    QuoteNormalizer.NormalizeOpening(['a'] + rest);
    QuoteNormalizer.NormalizePlain(QuoteNormalizer.Outside, '[', ['\''] + (['a'] + rest));
  }

  // ----- a second value in the same argument

  /** While a quote is open, a declared string that got more text grows the message exactly when it did not
      start out blank: a blank one writes another quote. */
  lemma OpenStringStreamsIff(parse: Parser, es: seq<Event>, x: string, y: string)
    requires InNamedCall(es) && QuoteRun(parse, false, es) && x <= y
    ensures var e, e' := ArgStringValue(x), ArgStringValue(y);
            && RunDefined(parse, INITIAL, es + [e]) && RunDefined(parse, INITIAL, es + [e'])
            && (Grows(ParseNodes(parse, es + [e]), ParseNodes(parse, es + [e'])) <==>
                TrimValue(x) != "" || TrimValue(y) == "")
            && (ChatDiff.Diffs(ParseNodes(parse, es + [e]), ParseNodes(parse, es + [e'])).Throw? <==>
                TrimValue(x) == "" && TrimValue(y) != "")
  {
    var e, e' := ArgStringValue(x), ArgStringValue(y);
    var s, t := OneMoreNode(parse, es, e);
    var _, t' := OneMoreNode(parse, es, e');
    ValueStep(parse, s, e);
    ValueStep(parse, s, e');
    FinishDecides(t, t');
    NamedValueGrowsIff(s, RenderString(x), RenderString(y));
    ValuePassesThrowIff(s, RenderString(x), RenderString(y));
    OpenPieceIff(x, y);
  }

  lemma OpenPieceIff(x: string, y: string)
    requires x <= y
    ensures var p, q := Piece(RenderString(x), true), Piece(RenderString(y), true);
            && (p <= q <==> TrimValue(x) != "" || TrimValue(y) == "")
            && (ChatDiff.Comparable(p, q) <==> TrimValue(x) != "" || TrimValue(y) == "")
  {
    TrimValueMonotone(x, y);
    var v, w := TrimValue(x), TrimValue(y);
    if v == "" && w != "" {
      EscapeHead(w);
      assert Piece(RenderString(x), true)[0] == '"' && Piece(RenderString(y), true)[0] == Escape(w)[0];
    } else {
      EscapeMonotone(v, w);
    }
  }

  /** For instance after any other declared string. */
  lemma SecondValueDoesNotStream(parse: Parser, name: string, key: string, a: string, b: string)
    requires TrimTrailing(name, -1) != "" && TrimValue(b) != ""
    ensures var es := CallUpTo(name, key, ArgStringValue(a));
            Breaks(parse, es + [ArgStringValue("")], es + [ArgStringValue(b)])
  {
    var es := CallUpTo(name, key, ArgStringValue(a));
    var head := [ToolOpen, ToolName(name), ArgOpen, ArgName(key)];
    CallHead(parse, name, key);
    CtxConcat(Idle, head, [ArgStringValue(a)]);
    CallTail(a);
    QuoteConcat(parse, false, head, [ArgStringValue(a)]);
    assert [ArgStringValue(a)][1..] == [];
    OpenStringStreamsIff(parse, es, "", b);
  }

  // ----- ids

  /** An id that is a lone quote and becomes an empty pair: the message does not grow, and since an empty id
      is not sent the client keeps the quote. */
  lemma EmptiedIdDoesNotStream(parse: Parser, name: string)
    requires TrimTrailing(name, -1) != ""
    ensures var head := [ToolOpen, ToolName(name)];
            var es, es' := head + [ToolId("\"")], head + [ToolId("\"\"")];
            && RunDefined(parse, INITIAL, es) && RunDefined(parse, INITIAL, es')
            && var m, m' := ParseNodes(parse, es), ParseNodes(parse, es');
            && !Grows(m, m') && ChatDiff.Diffs(m, m').Ok? && ChatDiff.ApplyAll(m, ChatDiff.Diffs(m, m').value) != m'
  {
    var head := [ToolOpen, ToolName(name)];
    assert head[1..] == [ToolName(name)] && [ToolName(name)][1..] == [];
    assert CtxRun(Idle, head) == Some(Open(true, false, false)) by {
      assert CtxRun(Open(false, false, false), [ToolName(name)]) == Some(Open(true, false, false));
    }
    var s, t := OneMoreNode(parse, head, ToolId("\""));
    var _, t' := OneMoreNode(parse, head, ToolId("\"\""));
    assert TrimTrailing("\"", -1) == "\"" && TrimTrailing("\"\"", -1) == "\"\"";
    IdsGrowIff(s, "\"", "\"\"");
    FinishDecides(t, t');
    EmptiedIdOk(s);
    ChatDiff.DiffsRebuildIff(Finish(t), Finish(t'));
  }

  lemma EmptiedIdOk(s: State)
    requires Inv(s) && s.current.LastTool? && HasTool(s)
    ensures ChatDiff.Diffs(Finish(StepId(s, "\"")), Finish(StepId(s, "\"\""))).Ok?
  {
    ChatDiff.DiffsThrowIff(Finish(StepId(s, "\"")), Finish(StepId(s, "\"\"")));
  }
}
