/** What a reply says, read off its nodes alone: which texts make up the content and the reasoning, and which
    calls the message has. */
module ChatTexts {
  import opened Wrappers
  import opened ChatMessage
  import opened JsonText
  import opened ChatMapper
  import opened ChatArguments
  import JsonSyntax

  // ----- content and reasoning

  /** The texts of the content nodes, in order. */
  function Said(es: seq<Event>): string {
    if es == [] then "" else (if es[0].Content? then es[0].text else "") + Said(es[1..])
  }

  /** The texts of the reasoning nodes, in order. */
  function Thought(es: seq<Event>): string {
    if es == [] then "" else (if es[0].Reasoning? then es[0].text else "") + Thought(es[1..])
  }

  lemma ToolKeepsTexts(parse: Parser, s: State, e: Event)
    requires UsesTool(e) && HasTool(s)
    ensures StepTool(parse, s, e).result.content == s.result.content
    ensures StepTool(parse, s, e).result.reasoning == s.result.reasoning
  {
  }

  lemma StepTexts(parse: Parser, s: State, e: Event)
    requires Defined(s, e)
    ensures Step(parse, s, e).result.content == s.result.content + (if e.Content? then e.text else "")
    ensures Step(parse, s, e).result.reasoning == s.result.reasoning + (if e.Reasoning? then e.text else "")
  {
    assert s.result.content + "" == s.result.content && s.result.reasoning + "" == s.result.reasoning;
    if UsesTool(e) && HasTool(s) {
      ToolKeepsTexts(parse, s, e);
    }
  }

  lemma {:induction false} RunTexts(parse: Parser, s: State, es: seq<Event>)
    requires RunDefined(parse, s, es)
    ensures Run(parse, s, es).result.content == s.result.content + Said(es)
    ensures Run(parse, s, es).result.reasoning == s.result.reasoning + Thought(es)
    decreases |es|
  {
    if es == [] {
      NothingAdded(s.result.content);
      NothingAdded(s.result.reasoning);
    } else {
      var e := es[0];
      StepTexts(parse, s, e);
      RunTexts(parse, Step(parse, s, e), es[1..]);
      Associative(s.result.content, if e.Content? then e.text else "", Said(es[1..]));
      Associative(s.result.reasoning, if e.Reasoning? then e.text else "", Thought(es[1..]));
    }
  }

  lemma NothingAdded(s: string)
    ensures s + "" == s
  {
  }

  /** For every pass: the content is the content nodes joined in order, and the reasoning is the reasoning nodes
      joined in order, or nothing if that is only spaces, tabs and line breaks. */
  lemma MessageTexts(parse: Parser, es: seq<Event>)
    requires RunDefined(parse, INITIAL, es)
    ensures var m := Finish(Run(parse, INITIAL, es));
            && m.content == Said(es)
            && m.reasoning == if forall i :: 0 <= i < |Thought(es)| ==> Thought(es)[i] in " \t\r\n" then ""
                              else Thought(es)
  {
    RunTexts(parse, INITIAL, es);
    assert "" + Said(es) == Said(es) && "" + Thought(es) == Thought(es);
    BlankIff(Thought(es));
  }

  lemma BlankIff(s: string)
    ensures IsBlank(s) <==> forall i :: 0 <= i < |s| ==> s[i] in " \t\r\n"
  {
  }

  // ----- names and ids

  /** The head of a call. */
  datatype Head = Head(name: string, id: string)

  function HeadsOf(calls: seq<ToolCall>): (r: seq<Head>)
    ensures |r| == |calls|
  {
    seq(|calls|, i requires 0 <= i < |calls| => Head(calls[i].name, calls[i].id))
  }

  /** The nodes before the next call is opened. */
  function Body(es: seq<Event>): seq<Event> {
    if es == [] || es[0].ToolOpen? then [] else [es[0]] + Body(es[1..])
  }

  predicate HasName(es: seq<Event>) {
    exists i :: 0 <= i < |es| && es[i].ToolName?
  }

  /** The last name given, or `name` if there is none. */
  function LastName(es: seq<Event>, name: string): string
    decreases |es|
  {
    if es == [] then name
    else LastName(es[1..], if es[0].ToolName? then TrimTrailing(es[0].text, -1) else name)
  }

  /** The calls of a reply: each opened call that is given a name has the last name and the last id given
      before the next call is opened. */
  function Calls(es: seq<Event>): seq<Head> {
    if es == [] then []
    else
      var body := Body(es[1..]);
      (if es[0].ToolOpen? && HasName(body) then [Head(LastName(body, ""), LastId(body, ""))] else []) + Calls(es[1..])
  }

  /** The heads after the nodes `es`, starting with the heads `hs` and the pointer `p`, which refers to the last
      of `hs` when it is live; `id` is the id of a call without a name. */
  function HeadsAfter(hs: seq<Head>, p: Pointer, id: string, es: seq<Event>): seq<Head>
    requires p.Live? ==> hs != []
  {
    var body := Body(es);
    match p
    case Null => hs + Calls(es)
    case Gone => hs + Calls(es)
    case Unnamed => hs + (if HasName(body) then [Head(LastName(body, ""), LastId(body, id))] else []) + Calls(es)
    case Live =>
      var last := hs[|hs| - 1];
      hs[..|hs| - 1] + [Head(LastName(body, last.name), LastId(body, last.id))] + Calls(es)
  }

  function PendingId(s: State): string {
    if s.pending.Some? then s.pending.value.id else ""
  }

  /** What one node does to the heads and to the id of a call without a name. */
  function HeadStep(hs: seq<Head>, p: Pointer, id: string, e: Event): (r: (seq<Head>, string))
    requires p.Live? ==> hs != []
    ensures PointerStep(p, e).Live? ==> r.0 != []
  {
    var trimmed := if e.ToolName? || e.ToolId? then TrimTrailing(e.text, -1) else "";
    if e.ToolOpen? then (hs, "")
    else if e.ToolName? && p.Unnamed? then (hs + [Head(trimmed, id)], "")
    else if e.ToolName? && p.Live? then (hs[|hs| - 1 := hs[|hs| - 1].(name := trimmed)], id)
    else if e.ToolId? && p.Unnamed? then (hs, StripQuotes(trimmed))
    else if e.ToolId? && p.Live? then (hs[|hs| - 1 := hs[|hs| - 1].(id := StripQuotes(trimmed))], id)
    else if e.ToolClose? && p.Unnamed? then (hs, "")
    else (hs, id)
  }

  lemma ToolHeads(parse: Parser, p: Pointer, s: State, e: Event)
    requires PointsAs(p, s) && Defined(s, e) && UsesTool(e) && (p.Unnamed? || p.Live?)
    ensures var s', r := StepTool(parse, s, e), HeadStep(HeadsOf(s.result.calls), p, PendingId(s), e);
            HeadsOf(s'.result.calls) == r.0 && PendingId(s') == r.1
  {
    var s', r := StepTool(parse, s, e), HeadStep(HeadsOf(s.result.calls), p, PendingId(s), e);
    if p.Live? {
      assert HeadsOf(s'.result.calls) == r.0;
    } else {
      assert HeadsOf(s'.result.calls) == r.0;
    }
  }

  lemma StepHeads(parse: Parser, p: Pointer, s: State, e: Event)
    requires PointsAs(p, s) && Defined(s, e)
    ensures var s', r := Step(parse, s, e), HeadStep(HeadsOf(s.result.calls), p, PendingId(s), e);
            HeadsOf(s'.result.calls) == r.0 && PendingId(s') == r.1
  {
    if UsesTool(e) && (p.Unnamed? || p.Live?) {
      ToolHeads(parse, p, s, e);
    }
  }

  lemma NameHead(e: Event, es: seq<Event>)
    ensures HasName([e] + es) <==> e.ToolName? || HasName(es)
  {
    if e.ToolName? {
      assert ([e] + es)[0].ToolName?;
    } else if HasName(es) {
      var i :| 0 <= i < |es| && es[i].ToolName?;
      assert ([e] + es)[i + 1].ToolName?;
    }
  }

  lemma BodyHead(e: Event, es: seq<Event>)
    ensures Body([e] + es) == if e.ToolOpen? then [] else [e] + Body(es)
    ensures !e.ToolOpen? ==> (HasName(Body([e] + es)) <==> e.ToolName? || HasName(Body(es)))
    ensures !e.ToolOpen? ==> Calls([e] + es) == Calls(es)
  {
    assert ([e] + es)[1..] == es;
    if !e.ToolOpen? {
      NameHead(e, Body(es));
    }
  }

  lemma LastHead(e: Event, es: seq<Event>, name: string, id: string)
    ensures LastName([e] + es, name) == LastName(es, if e.ToolName? then TrimTrailing(e.text, -1) else name)
    ensures LastId([e] + es, id) == LastId(es, if e.ToolId? then StripQuotes(TrimTrailing(e.text, -1)) else id)
  {
    assert ([e] + es)[1..] == es;
  }

  /** After a call was discarded nothing is named before the next one is opened. */
  lemma {:induction false} GoneHasNoName(es: seq<Event>)
    requires NeverGone(Gone, es)
    ensures !HasName(Body(es))
    decreases |es|
  {
    if es != [] && !es[0].ToolOpen? {
      GoneHasNoName(es[1..]);
      BodyHead(es[0], es[1..]);
      assert es == [es[0]] + es[1..];
    }
  }

  lemma LiveHeadsStep(hs: seq<Head>, id: string, e: Event, es: seq<Event>)
    requires hs != [] && !e.ToolOpen?
    ensures var (hs', id') := HeadStep(hs, Live, id, e);
            hs' != [] && HeadsAfter(hs, Live, id, [e] + es) == HeadsAfter(hs', Live, id', es)
  {
    var last := hs[|hs| - 1];
    BodyHead(e, es);
    LastHead(e, Body(es), last.name, last.id);
  }

  lemma NamedHeadsStep(hs: seq<Head>, id: string, name: string, es: seq<Event>)
    ensures HeadsAfter(hs, Unnamed, id, [ToolName(name)] + es)
         == HeadsAfter(hs + [Head(TrimTrailing(name, -1), id)], Live, "", es)
  {
    BodyHead(ToolName(name), es);
    LastHead(ToolName(name), Body(es), "", id);
    var hs' := hs + [Head(TrimTrailing(name, -1), id)];
    assert hs'[..|hs'| - 1] == hs;
  }

  lemma UnnamedHeadsStep(hs: seq<Head>, id: string, e: Event, es: seq<Event>)
    requires !e.ToolOpen? && !e.ToolName? && (e.ToolClose? ==> !HasName(Body(es)))
    ensures var (hs', id') := HeadStep(hs, Unnamed, id, e);
            HeadsAfter(hs, Unnamed, id, [e] + es) == HeadsAfter(hs', PointerStep(Unnamed, e), id', es)
  {
    BodyHead(e, es);
    LastHead(e, Body(es), "", id);
    assert hs + [] == hs;
  }

  lemma OpenHeadsStep(hs: seq<Head>, p: Pointer, id: string, es: seq<Event>)
    requires p.Live? ==> hs != []
    ensures HeadsAfter(hs, p, id, [ToolOpen] + es) == HeadsAfter(hs, Unnamed, "", es)
  {
    BodyHead(ToolOpen, es);
    assert ([ToolOpen] + es)[1..] == es;
    var first := if HasName(Body(es)) then [Head(LastName(Body(es), ""), LastId(Body(es), ""))] else [];
    Regroup(hs, first, Calls(es));
    assert hs + [] == hs;
  }

  lemma Regroup<T>(a: seq<T>, b: seq<T>, c: seq<T>)
    ensures a + (b + c) == a + b + c
  {
  }

  lemma HeadsStep(hs: seq<Head>, p: Pointer, id: string, e: Event, es: seq<Event>)
    requires p.Live? ==> hs != []
    requires NeverGone(p, [e] + es)
    ensures var (hs', id') := HeadStep(hs, p, id, e);
            HeadsAfter(hs, p, id, [e] + es) == HeadsAfter(hs', PointerStep(p, e), id', es)
  {
    assert ([e] + es)[0] == e && ([e] + es)[1..] == es;
    if e.ToolOpen? {
      OpenHeadsStep(hs, p, id, es);
    } else if p.Live? {
      LiveHeadsStep(hs, id, e, es);
    } else if p.Unnamed? {
      if e.ToolName? {
        NamedHeadsStep(hs, id, e.text, es);
      } else {
        if e.ToolClose? {
          GoneHasNoName(es);
        }
        UnnamedHeadsStep(hs, id, e, es);
      }
    } else {
      BodyHead(e, es);
    }
  }

  lemma {:induction false} RunHeads(parse: Parser, p: Pointer, s: State, es: seq<Event>)
    requires PointsAs(p, s) && RunDefined(parse, s, es)
    ensures HeadsOf(Run(parse, s, es).result.calls) == HeadsAfter(HeadsOf(s.result.calls), p, PendingId(s), es)
    decreases |es|
  {
    var hs := HeadsOf(s.result.calls);
    if es == [] {
      assert hs + [] == hs;
    } else {
      var e := es[0];
      RunDefinedFrom(parse, p, s, es);
      PointerFollows(parse, p, s, e);
      StepHeads(parse, p, s, e);
      assert es == [e] + es[1..];
      HeadsStep(hs, p, PendingId(s), e, es[1..]);
      RunHeads(parse, PointerStep(p, e), Step(parse, s, e), es[1..]);
    }
  }

  /** For every pass: the message has one call for each call that is opened and named, in order, with the last
      name and the last id that its nodes give. */
  lemma MessageCalls(parse: Parser, es: seq<Event>)
    requires RunDefined(parse, INITIAL, es)
    ensures HeadsOf(Finish(Run(parse, INITIAL, es)).calls) == Calls(es)
  {
    RunHeads(parse, Null, INITIAL, es);
    FlushIsIdle(parse, es);
    assert HeadsOf([]) == [] && [] + Calls(es) == Calls(es);
  }
}
