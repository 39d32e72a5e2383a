/** A tool call given as tagged arguments ends up with exactly the JSON object a plain printer would
    write for it. */
module ChatArguments {
  import opened Wrappers
  import opened ChatMessage
  import opened JsonText
  import opened ChatMapper
  import JsonSyntax

  // ----- the reference printer

  /** A member of a JSON object: its key and its already printed value. */
  datatype Field = Field(key: string, value: string)

  function PrintField(f: Field): string {
    Quote(f.key) + ":" + f.value
  }

  function PrintFields(fs: seq<Field>): string {
    if fs == [] then ""
    else if |fs| == 1 then PrintField(fs[0])
    else PrintField(fs[0]) + "," + PrintFields(fs[1..])
  }

  function PrintObject(fs: seq<Field>): string {
    "{" + PrintFields(fs) + "}"
  }

  // ----- tagged arguments

  /** One argument: its name node and its value node. */
  datatype Arg = Arg(key: string, value: Event)

  /** Values are complete. */
  predicate GoodArg(a: Arg) {
    IsValue(a.value) && (a.value.ArgValue? ==> !a.value.partial)
  }

  /** The value as JSON text. A blank value that is not declared a string prints as nothing. */
  function PrintValue(parse: Parser, e: Event): string
    requires IsValue(e)
  {
    match Rendered(parse, e)
    case Nothing => ""
    case Raw(text) => text
    case Quoted(content) => Quote(content)
    case Fresh(content) => Quote(content)
  }

  /** A declared string always prints as the quoted trimmed text. */
  lemma StringValuePrints(parse: Parser, text: string)
    ensures PrintValue(parse, ArgStringValue(text)) == Quote(TrimValue(text))
  {
  }

  function FieldOf(parse: Parser, a: Arg): Field
    requires IsValue(a.value)
  {
    Field(TrimKey(a.key), PrintValue(parse, a.value))
  }

  ghost predicate GoodArgs(parse: Parser, args: seq<Arg>) {
    AcceptsJson(parse) && forall a :: a in args ==> GoodArg(a)
  }

  function Fields(parse: Parser, args: seq<Arg>): seq<Field>
    requires forall a :: a in args ==> IsValue(a.value)
  {
    if args == [] then [] else [FieldOf(parse, args[0])] + Fields(parse, args[1..])
  }

  function Group(a: Arg): seq<Event> {
    [ArgOpen, ArgName(a.key), a.value, ArgClose]
  }

  function Groups(args: seq<Arg>): seq<Event> {
    if args == [] then [] else Group(args[0]) + Groups(args[1..])
  }

  // ----- events inside a call

  predicate IsArgEvent(e: Event) {
    e.ArgOpen? || e.ArgName? || e.ArgValue? || e.ArgStringValue? || e.ArgClose?
  }

  /** Nodes that do not touch the arguments. */
  predicate IsNeutral(e: Event) {
    e.Reasoning? || e.Content? || e.Other? || e.ToolId? || (e.ToolArgs? && !IsWholeArgs(e.text))
  }

  function ArgEvents(es: seq<Event>): seq<Event> {
    if es == [] then []
    else (if IsArgEvent(es[0]) then [es[0]] else []) + ArgEvents(es[1..])
  }

  /** The id after the events, if it was `id` before. */
  function LastId(es: seq<Event>, id: string): string
    decreases |es|
  {
    if es == [] then id
    else LastId(es[1..], if es[0].ToolId? then StripQuotes(TrimTrailing(es[0].text, -1)) else id)
  }

  /** A call is being received after the finished calls `base`; `named` says whether its name has come. */
  predicate Receiving(s: State, base: seq<ToolCall>, named: bool) {
    && HasTool(s)
    && (named ==> s.current.LastTool? && s.pending.None? && s.result.calls[..|s.result.calls| - 1] == base
                  && Tool(s).name != "" && Tool(s).arguments != "")
    && (!named ==> s.current.PendingTool? && s.result.calls == base && Tool(s).name == "" && Tool(s).arguments == "")
  }

  /** The arguments so far, wherever they are kept. */
  datatype Acc = Acc(text: string, count: nat, open: bool)

  function AccOf(s: State): Acc
    requires HasTool(s)
  {
    Acc(if Target(s) == "" then "{" else Target(s), s.argCount, s.quotePending)
  }

  /** Before the first argument name nothing has been written. */
  predicate Orderly(s: State)
    requires HasTool(s)
  {
    if s.argCount == 0 then !s.quotePending else Target(s) != ""
  }

  predicate AccTakes(a: Acc, e: Event) {
    IsArgEvent(e) && (IsValue(e) ==> a.count > 0)
  }

  function AccStep(parse: Parser, a: Acc, e: Event): Acc
    requires AccTakes(a, e)
  {
    match e
    case ArgOpen => a.(open := false)
    case ArgName(text) => a.(text := a.text + KeyText(a.count, text), count := a.count + 1)
    case ArgClose => if a.open then Acc(a.text + "\"", a.count, false) else a
    case _ =>
      var r := Rendered(parse, e);
      Acc(a.text + Piece(r, a.open), a.count, a.open || r.Quoted? || r.Fresh?)
  }

  predicate AccRuns(parse: Parser, a: Acc, es: seq<Event>)
    decreases |es|
  {
    es == [] || (AccTakes(a, es[0]) && AccRuns(parse, AccStep(parse, a, es[0]), es[1..]))
  }

  function AccRun(parse: Parser, a: Acc, es: seq<Event>): Acc
    requires AccRuns(parse, a, es)
    decreases |es|
  {
    if es == [] then a else AccRun(parse, AccStep(parse, a, es[0]), es[1..])
  }

  lemma {:induction false} AccConcat(parse: Parser, a: Acc, x: seq<Event>, y: seq<Event>)
    requires AccRuns(parse, a, x)
    ensures AccRuns(parse, a, x + y) <==> AccRuns(parse, AccRun(parse, a, x), y)
    ensures AccRuns(parse, a, x + y) ==> AccRun(parse, a, x + y) == AccRun(parse, AccRun(parse, a, x), y)
    decreases |x|
  {
    if x == [] {
      assert x + y == y;
    } else {
      assert (x + y)[0] == x[0] && (x + y)[1..] == x[1..] + y;
      AccConcat(parse, AccStep(parse, a, x[0]), x[1..], y);
    }
  }

  ghost predicate Accumulates(parse: Parser, s: State, e: Event, s': State, base: seq<ToolCall>, named: bool)
    requires HasTool(s) && AccTakes(AccOf(s), e)
  {
    && Receiving(s', base, named) && Orderly(s') && AccOf(s') == AccStep(parse, AccOf(s), e)
    && Tool(s').name == Tool(s).name && Tool(s').id == Tool(s).id
  }

  lemma ValueAccumulates(parse: Parser, s: State, e: Event, base: seq<ToolCall>, named: bool)
    requires Receiving(s, base, named) && Orderly(s) && AccTakes(AccOf(s), e) && IsValue(e)
    ensures Accumulates(parse, s, e, StepValue(s, Rendered(parse, e)), base, named)
  {
  }

  lemma NameAccumulates(parse: Parser, s: State, text: string, base: seq<ToolCall>, named: bool)
    requires Receiving(s, base, named) && Orderly(s)
    ensures Accumulates(parse, s, ArgName(text), StepArgName(s, text), base, named)
  {
    assert KeyText(s.argCount, text) != "";
  }

  /** An argument node adds to the arguments in the same way whether they sit in the buffer or in the
      call. */
  lemma ArgEventAccumulates(parse: Parser, s: State, e: Event, base: seq<ToolCall>, named: bool)
    requires Receiving(s, base, named) && Orderly(s) && AccTakes(AccOf(s), e)
    ensures Accumulates(parse, s, e, Step(parse, s, e), base, named)
  {
    if IsValue(e) {
      ValueAccumulates(parse, s, e, base, named);
    } else if e.ArgName? {
      NameAccumulates(parse, s, e.text, base, named);
    }
  }

  lemma NeutralEventKeeps(parse: Parser, s: State, e: Event, base: seq<ToolCall>, named: bool)
    requires Receiving(s, base, named) && Orderly(s) && IsNeutral(e)
    ensures var s' := Step(parse, s, e);
            && Receiving(s', base, named) && Orderly(s') && AccOf(s') == AccOf(s)
            && Tool(s').name == Tool(s).name
            && Tool(s').id == LastId([e], Tool(s).id)
  {
    var id := if e.ToolId? then StripQuotes(TrimTrailing(e.text, -1)) else Tool(s).id;
    assert [e][1..] == [];
    assert LastId([e][1..], id) == id;
  }

  /** Any run of argument and neutral nodes inside a call. */
  lemma {:induction false} ReceivingRun(parse: Parser, s: State, es: seq<Event>, base: seq<ToolCall>, named: bool)
    requires Receiving(s, base, named) && Orderly(s)
    requires forall e :: e in es ==> IsArgEvent(e) || IsNeutral(e)
    requires AccRuns(parse, AccOf(s), ArgEvents(es))
    ensures RunDefined(parse, s, es)
    ensures var s' := Run(parse, s, es);
            && Receiving(s', base, named) && Orderly(s')
            && AccOf(s') == AccRun(parse, AccOf(s), ArgEvents(es))
            && Tool(s').name == Tool(s).name && Tool(s').id == LastId(es, Tool(s).id)
    decreases |es|
  {
    if es != [] {
      var e := es[0];
      var s1 := Step(parse, s, e);
      assert e in es;
      if IsArgEvent(e) {
        assert ArgEvents(es)[0] == e && ArgEvents(es)[1..] == ArgEvents(es[1..]);
        ArgEventAccumulates(parse, s, e, base, named);
      } else {
        assert ArgEvents(es) == ArgEvents(es[1..]);
        NeutralEventKeeps(parse, s, e, base, named);
        assert [e][1..] == [];
        assert LastId([e][1..], Tool(s1).id) == Tool(s1).id;
      }
      ReceivingRun(parse, s1, es[1..], base, named);
    }
  }

  /** The name node moves the arguments from the buffer into the call. */
  lemma NameKeepsArguments(parse: Parser, s: State, name: string, base: seq<ToolCall>)
    requires Receiving(s, base, false) && Orderly(s) && TrimTrailing(name, -1) != ""
    ensures var s' := Step(parse, s, ToolName(name));
            && Receiving(s', base, true) && Orderly(s') && AccOf(s') == AccOf(s)
            && Tool(s').name == TrimTrailing(name, -1) && Tool(s').id == Tool(s).id
  {
    var s' := Step(parse, s, ToolName(name));
    assert s'.result.calls[..|s'.result.calls| - 1] == base;
  }

  // ----- what the argument nodes write

  /** The text of the members, each with its comma, when `n` members came before. */
  function Entries(parse: Parser, args: seq<Arg>, n: nat): string
    requires forall a :: a in args ==> IsValue(a.value)
    decreases |args|
  {
    if args == [] then ""
    else KeyText(n, args[0].key) + PrintValue(parse, args[0].value) + Entries(parse, args[1..], n + 1)
  }

  /** A value node and the closing node after it write the printed value. */
  lemma ValueAndCloseWrite(parse: Parser, k: string, n: nat, e: Event)
    requires IsValue(e) && n > 0
    ensures AccStep(parse, AccStep(parse, Acc(k, n, false), e), ArgClose) == Acc(k + PrintValue(parse, e), n, false)
  {
    match Rendered(parse, e)
    case Nothing =>
    case Raw(_) =>
    case Quoted(c) => assert k + ("\"" + Escape(c)) + "\"" == k + Quote(c);
    case Fresh(c) => assert k + ("\"" + Escape(c)) + "\"" == k + Quote(c);
  }

  lemma AccRunCons(parse: Parser, a: Acc, e: Event, es: seq<Event>)
    requires AccTakes(a, e) && AccRuns(parse, AccStep(parse, a, e), es)
    ensures AccRuns(parse, a, [e] + es)
    ensures AccRun(parse, a, [e] + es) == AccRun(parse, AccStep(parse, a, e), es)
  {
    assert ([e] + es)[0] == e && ([e] + es)[1..] == es;
  }

  lemma GroupWrites(parse: Parser, t: string, n: nat, a: Arg)
    requires IsValue(a.value)
    ensures AccRuns(parse, Acc(t, n, false), Group(a))
    ensures AccRun(parse, Acc(t, n, false), Group(a))
         == Acc(t + KeyText(n, a.key) + PrintValue(parse, a.value), n + 1, false)
  {
    var a1 := AccStep(parse, Acc(t, n, false), ArgOpen);
    var a2 := AccStep(parse, a1, ArgName(a.key));
    var a3 := AccStep(parse, a2, a.value);
    var a4 := AccStep(parse, a3, ArgClose);
    ValueAndCloseWrite(parse, t + KeyText(n, a.key), n + 1, a.value);
    assert AccRuns(parse, a4, []) && AccRun(parse, a4, []) == a4;
    AccRunCons(parse, a3, ArgClose, []);
    AccRunCons(parse, a2, a.value, [ArgClose] + []);
    AccRunCons(parse, a1, ArgName(a.key), [a.value] + ([ArgClose] + []));
    AccRunCons(parse, Acc(t, n, false), ArgOpen, [ArgName(a.key)] + ([a.value] + ([ArgClose] + [])));
    assert Group(a) == [ArgOpen] + ([ArgName(a.key)] + ([a.value] + ([ArgClose] + [])));
  }

  lemma {:induction false} GroupsWrite(parse: Parser, t: string, n: nat, args: seq<Arg>)
    requires forall a :: a in args ==> IsValue(a.value)
    ensures AccRuns(parse, Acc(t, n, false), Groups(args))
    ensures AccRun(parse, Acc(t, n, false), Groups(args)) == Acc(t + Entries(parse, args, n), n + |args|, false)
    decreases |args|
  {
    if args == [] {
      assert t + "" == t;
    } else {
      var t1 := t + KeyText(n, args[0].key) + PrintValue(parse, args[0].value);
      GroupWrites(parse, t, n, args[0]);
      GroupsWrite(parse, t1, n + 1, args[1..]);
      AccConcat(parse, Acc(t, n, false), Group(args[0]), Groups(args[1..]));
      ThreeParts(t, KeyText(n, args[0].key), PrintValue(parse, args[0].value), Entries(parse, args[1..], n + 1));
    }
  }

  lemma ThreeParts(a: string, b: string, c: string, d: string)
    ensures a + b + c + d == a + (b + c + d)
    ensures a + b + c + d == a + (b + (c + d))
  {
  }

  lemma {:induction false} EntriesArePrinted(parse: Parser, args: seq<Arg>, n: nat)
    requires forall a :: a in args ==> IsValue(a.value)
    ensures Entries(parse, args, n)
         == (if n > 0 && args != [] then "," else "") + PrintFields(Fields(parse, args))
    decreases |args|
  {
    if args != [] {
      EntriesArePrinted(parse, args[1..], n + 1);
      FieldsSplit(parse, args);
      var f := FieldOf(parse, args[0]);
      var comma := if n > 0 then "," else "";
      var rest := PrintFields(Fields(parse, args[1..]));
      KeyIsPrinted(n, args[0].key, f.value, if args[1..] == [] then "" else "," + rest);
    }
  }

  lemma KeyIsPrinted(n: nat, key: string, value: string, rest: string)
    ensures KeyText(n, key) + value + rest
         == (if n > 0 then "," else "") + (PrintField(Field(TrimKey(key), value)) + rest)
  {
  }

  lemma FieldsSplit(parse: Parser, args: seq<Arg>)
    requires args != [] && forall a :: a in args ==> IsValue(a.value)
    ensures var rest := PrintFields(Fields(parse, args[1..]));
            && (args[1..] == [] ==> rest == "")
            && PrintFields(Fields(parse, args))
               == PrintField(FieldOf(parse, args[0])) + (if args[1..] == [] then "" else "," + rest)
  {
    var fs := Fields(parse, args);
    assert fs[1..] == Fields(parse, args[1..]);
    PrintFieldsSplit(fs);
  }

  lemma PrintFieldsSplit(fs: seq<Field>)
    requires fs != []
    ensures PrintFields(fs) == PrintField(fs[0]) + (if fs[1..] == [] then "" else "," + PrintFields(fs[1..]))
  {
    var first := PrintField(fs[0]);
    if fs[1..] == [] {
      assert first + "" == first;
    } else {
      Associative(first, ",", PrintFields(fs[1..]));
    }
  }

  lemma Associative(a: string, b: string, c: string)
    ensures a + b + c == a + (b + c)
  {
  }

  /** Printed members leave the brace counter alone, so repair adds exactly one brace. */
  lemma {:induction false} EntriesBalanced(parse: Parser, args: seq<Arg>, n: nat, d: int)
    requires GoodArgs(parse, args)
    ensures ScanAll(Scan(d, false, false), Entries(parse, args, n)) == Scan(d, false, false)
    decreases |args|
  {
    if args != [] {
      assert args[0] in args && GoodArg(args[0]);
      forall a | a in args[1..] ensures IsValue(a.value) { assert a in args && GoodArg(a); }
      var st := Scan(d, false, false);
      var key, value := KeyText(n, args[0].key), PrintValue(parse, args[0].value);
      ScanKey(n, args[0].key, d);
      ScanValue(parse, args[0], d);
      ScanConcat(st, key, value);
      ScanConcat(st, key + value, Entries(parse, args[1..], n + 1));
      EntriesBalanced(parse, args[1..], n + 1, d);
    }
  }

  lemma ScanKey(n: nat, key: string, d: int)
    ensures ScanAll(Scan(d, false, false), KeyText(n, key)) == Scan(d, false, false)
  {
    var st := Scan(d, false, false);
    var comma := if n > 0 then "," else "";
    ScanConcat(st, comma + Quote(TrimKey(key)), ":");
    ScanConcat(st, comma, Quote(TrimKey(key)));
    ScanOne(st, ',');
    ScanQuoted(d, TrimKey(key));
    ScanOne(st, ':');
  }

  lemma ScanValue(parse: Parser, a: Arg, d: int)
    requires AcceptsJson(parse) && GoodArg(a)
    ensures ScanAll(Scan(d, false, false), PrintValue(parse, a.value)) == Scan(d, false, false)
  {
    match Rendered(parse, a.value)
    case Nothing =>
    case Raw(text) =>
      assert text == Normalized(TrimValue(a.value.text)) && parse(text).OtherValue?;
      JsonSyntax.OtherJsonBalanced(text);
    case Quoted(c) => ScanQuoted(d, c);
    case Fresh(c) => ScanQuoted(d, c);
  }

  lemma RepairAddsOneBrace(parse: Parser, args: seq<Arg>)
    requires GoodArgs(parse, args)
    ensures CloseBraces("{" + Entries(parse, args, 0)) == PrintObject(Fields(parse, args))
  {
    var text := "{" + Entries(parse, args, 0);
    var st := Scan(0, false, false);
    ScanConcat(st, "{", Entries(parse, args, 0));
    ScanOne(st, '{');
    EntriesBalanced(parse, args, 0, 1);
    assert BraceDepth(text) == 1;
    assert Repeat('}', 1) == Repeat('}', 0) + "}" == "}";
    EntriesArePrinted(parse, args, 0);
    assert "" + PrintFields(Fields(parse, args)) == PrintFields(Fields(parse, args));
  }

  // ----- main result

  /** For every tagged call - opened, named once with a non-blank name at any point, with any number of
      argument groups and any neutral nodes in between, and closed - the message gains one call whose
      arguments are what the plain printer writes. */
  lemma TaggedCallPrints(parse: Parser, s: State, before: seq<Event>, name: string, after: seq<Event>, args: seq<Arg>)
    requires forall e :: e in before + after ==> IsArgEvent(e) || IsNeutral(e)
    requires TrimTrailing(name, -1) != ""
    requires GoodArgs(parse, args)
    requires ArgEvents(before) + ArgEvents(after) == Groups(args)
    ensures var es := [ToolOpen] + before + [ToolName(name)] + after + [ToolClose];
            && RunDefined(parse, s, es)
            && Run(parse, s, es).result.calls == s.result.calls
               + [ToolCall(TrimTrailing(name, -1), PrintObject(Fields(parse, args)), LastId(before + after, ""))]
  {
    var base := s.result.calls;
    var a0 := Acc("{", 0, false);
    GroupsWrite(parse, "{", 0, args);
    AccSplit(parse, a0, ArgEvents(before), ArgEvents(after));

    var s0 := Step(parse, s, ToolOpen);
    forall e | e in before ensures IsArgEvent(e) || IsNeutral(e) { assert e in before + after; }
    ReceivingRun(parse, s0, before, base, false);
    var s1 := Run(parse, s0, before);
    NameKeepsArguments(parse, s1, name, base);
    var s2 := Step(parse, s1, ToolName(name));
    forall e | e in after ensures IsArgEvent(e) || IsNeutral(e) { assert e in before + after; }
    AccConcat(parse, a0, ArgEvents(before), ArgEvents(after));
    ReceivingRun(parse, s2, after, base, true);
    var s3 := Run(parse, s2, after);
    CloseFinishes(parse, s3, base, args);
    var s4 := Step(parse, s3, ToolClose);
    LastIdConcat(before, after, "");

    SingleRun(parse, s, ToolOpen);
    RunConcat(parse, s, [ToolOpen], before);
    SingleRun(parse, s1, ToolName(name));
    RunConcat(parse, s, [ToolOpen] + before, [ToolName(name)]);
    RunConcat(parse, s, [ToolOpen] + before + [ToolName(name)], after);
    SingleRun(parse, s3, ToolClose);
    RunConcat(parse, s, [ToolOpen] + before + [ToolName(name)] + after, [ToolClose]);
  }

  /** A run over a concatenation passes through its first part. */
  lemma {:induction false} AccSplit(parse: Parser, a: Acc, x: seq<Event>, y: seq<Event>)
    requires AccRuns(parse, a, x + y)
    ensures AccRuns(parse, a, x)
    decreases |x|
  {
    if x != [] {
      assert (x + y)[0] == x[0] && (x + y)[1..] == x[1..] + y;
      AccSplit(parse, AccStep(parse, a, x[0]), x[1..], y);
    }
  }

  lemma {:induction false} LastIdConcat(a: seq<Event>, b: seq<Event>, id: string)
    ensures LastId(a + b, id) == LastId(b, LastId(a, id))
    decreases |a|
  {
    if a == [] {
      assert a + b == b;
    } else {
      assert (a + b)[0] == a[0] && (a + b)[1..] == a[1..] + b;
      LastIdConcat(a[1..], b, if a[0].ToolId? then StripQuotes(TrimTrailing(a[0].text, -1)) else id);
    }
  }

  lemma CloseNamed(parse: Parser, s: State, base: seq<ToolCall>)
    requires Receiving(s, base, true) && !s.quotePending
    ensures Step(parse, s, ToolClose).result.calls
         == base + [ToolCall(Tool(s).name, CloseBraces(Tool(s).arguments), Tool(s).id)]
  {
    assert Tool(s).arguments + "" == Tool(s).arguments;
    var calls := StepClose(s).result.calls;
    assert calls[..|calls| - 1] == base;
  }

  lemma CloseFinishes(parse: Parser, s: State, base: seq<ToolCall>, args: seq<Arg>)
    requires Receiving(s, base, true) && GoodArgs(parse, args)
    requires AccOf(s) == Acc("{" + Entries(parse, args, 0), |args|, false)
    ensures Step(parse, s, ToolClose).result.calls
         == base + [ToolCall(Tool(s).name, PrintObject(Fields(parse, args)), Tool(s).id)]
  {
    CloseNamed(parse, s, base);
    var text := Tool(s).arguments;
    assert text == "{" + Entries(parse, args, 0);
    RepairAddsOneBrace(parse, args);
  }

  /** A call that never gets a name leaves no trace in the message. */
  lemma NamelessCallIsDropped(parse: Parser, s: State, body: seq<Event>, args: seq<Arg>)
    requires forall e :: e in body ==> IsArgEvent(e) || IsNeutral(e)
    requires GoodArgs(parse, args) && ArgEvents(body) == Groups(args)
    ensures var es := [ToolOpen] + body + [ToolClose];
            RunDefined(parse, s, es) && Run(parse, s, es).result.calls == s.result.calls
  {
    GroupsWrite(parse, "{", 0, args);
    var s0 := Step(parse, s, ToolOpen);
    ReceivingRun(parse, s0, body, s.result.calls, false);
    SingleRun(parse, s, ToolOpen);
    RunConcat(parse, s, [ToolOpen], body);
    SingleRun(parse, Run(parse, s0, body), ToolClose);
    RunConcat(parse, s, [ToolOpen] + body, [ToolClose]);
  }
}
