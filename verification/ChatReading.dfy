/** What a client reads in the arguments of a call: for tagged arguments the trimmed keys and values, and for a
    call given as JSON the text of the reply. */
module ChatReading {
  import opened Wrappers
  import opened ChatMessage
  import opened JsonText
  import opened JsonReader
  import opened ChatMapper
  import opened ChatArguments
  import JsonSyntax
  import QuoteNormalizer

  // ----- tagged arguments

  /** The value that is meant: a declared string is its trimmed text; any other text is the JSON it holds, a
      string if it is not JSON, and nothing if it is blank. Lists and objects may be written with the quotes of
      Python. */
  function Meaning(parse: Parser, e: Event): Value
    requires IsValue(e)
  {
    var v := TrimValue(e.text);
    if e.ArgStringValue? then Str(v)
    else if v == "" then Verbatim("")
    else
      var n := if v[0] in "[{" then QuoteNormalizer.Normalize(QuoteNormalizer.Outside, v) else v;
      match parse(n)
      case StringValue(value) => Str(value)
      case OtherValue => Verbatim(n)
      case Invalid => Str(n)
  }

  function Meant(parse: Parser, args: seq<Arg>): (r: seq<Entry>)
    requires forall a :: a in args ==> IsValue(a.value)
    ensures |r| == |args|
    ensures forall i :: 0 <= i < |args| ==> r[i] == Entry(TrimKey(args[i].key), Meaning(parse, args[i].value))
  {
    seq(|args|, i requires 0 <= i < |args| => Entry(TrimKey(args[i].key), Meaning(parse, args[i].value)))
  }

  /** How a meant value is written. */
  predicate Writes(r: Rendering, v: Value) {
    match r
    case Nothing => v == Verbatim("")
    case Raw(text) => v == Verbatim(text)
    case Quoted(content) => v == Str(content)
    case Fresh(content) => v == Str(content)
  }

  lemma RenderedWrites(parse: Parser, a: Arg)
    requires AcceptsJson(parse) && GoodArg(a)
    ensures Writes(Rendered(parse, a.value), Meaning(parse, a.value))
    ensures Rendered(parse, a.value).Raw? ==> JsonSyntax.IsOtherJson(Rendered(parse, a.value).text)
  {
    if Rendered(parse, a.value).Raw? {
      assert parse(Normalized(TrimValue(a.value.text))).OtherValue?;
    }
  }

  /** A printed value is read as the value that is meant. */
  lemma ValueReads(parse: Parser, a: Arg)
    requires AcceptsJson(parse) && GoodArg(a)
    ensures ReadsAs(PrintValue(parse, a.value), Meaning(parse, a.value))
  {
    RenderedWrites(parse, a);
    match Rendered(parse, a.value)
    case Nothing => NothingReadsAs();
    case Raw(text) => OtherJsonReadsAs(text);
    case Quoted(c) => QuoteReadsAs(c);
    case Fresh(c) => QuoteReadsAs(c);
  }

  lemma EntryReads(key: string, t: string, v: Value, rest: string)
    requires ReadsAs(t, v) && rest != "" && (rest[0] == ',' || rest[0] == '}')
    ensures ReadEntry(PrintField(Field(key, t)) + rest) == Some((Entry(key, v), rest))
  {
    var s1 := ":" + (t + rest);
    assert PrintField(Field(key, t)) + rest == Quote(key) + s1;
    QuoteReads(key, s1);
    assert s1[1..] == t + rest;
  }

  lemma MeantHead(parse: Parser, args: seq<Arg>)
    requires args != [] && forall a :: a in args ==> IsValue(a.value)
    ensures Meant(parse, args)
         == [Entry(TrimKey(args[0].key), Meaning(parse, args[0].value))] + Meant(parse, args[1..])
  {
  }

  lemma Behind(a: string, b: string, c: string, d: string)
    ensures a + (b + c) + d == a + (b + (c + d))
    ensures a + b + c == a + (b + c)
    ensures a + "" + b + c == a + (b + c)
  {
    assert a + "" == a;
  }

  lemma FieldsTail(parse: Parser, args: seq<Arg>, rest: string)
    requires args != [] && forall a :: a in args ==> IsValue(a.value)
    ensures var first, more := PrintField(FieldOf(parse, args[0])), PrintFields(Fields(parse, args[1..]));
            PrintFields(Fields(parse, args)) + ("}" + rest)
            == first + (if args[1..] == [] then "}" + rest else "," + (more + ("}" + rest)))
  {
    FieldsSplit(parse, args);
    var first, more := PrintField(FieldOf(parse, args[0])), PrintFields(Fields(parse, args[1..]));
    Behind(first, ",", more, "}" + rest);
    Behind(first, "}", rest, "");
  }

  lemma LastEntry(s: string, e: Entry, rest: string)
    requires ReadEntry(s) == Some((e, "}" + rest))
    ensures ReadEntries(s) == Some(([e], rest))
  {
    assert ("}" + rest)[1..] == rest;
  }

  lemma MoreEntries(s: string, e: Entry, more: string, es: seq<Entry>, rest: string)
    requires ReadEntry(s) == Some((e, "," + more)) && ReadEntries(more) == Some((es, rest))
    ensures ReadEntries(s) == Some(([e] + es, rest))
  {
    assert ("," + more)[1..] == more;
  }

  lemma {:induction false} FieldsRead(parse: Parser, args: seq<Arg>, rest: string)
    requires GoodArgs(parse, args) && args != []
    ensures forall a :: a in args ==> IsValue(a.value)
    ensures ReadEntries(PrintFields(Fields(parse, args)) + ("}" + rest)) == Some((Meant(parse, args), rest))
    decreases |args|
  {
    var a := args[0];
    assert a in args;
    ValueReads(parse, a);
    FieldsTail(parse, args, rest);
    MeantHead(parse, args);
    var s, e := PrintFields(Fields(parse, args)) + ("}" + rest), Entry(TrimKey(a.key), Meaning(parse, a.value));
    if args[1..] == [] {
      EntryReads(TrimKey(a.key), PrintValue(parse, a.value), e.value, "}" + rest);
      LastEntry(s, e, rest);
      assert Meant(parse, args) == [e];
    } else {
      FieldsRead(parse, args[1..], rest);
      var more := PrintFields(Fields(parse, args[1..])) + ("}" + rest);
      EntryReads(TrimKey(a.key), PrintValue(parse, a.value), e.value, "," + more);
      MoreEntries(s, e, more, Meant(parse, args[1..]), rest);
    }
  }

  lemma ObjectOf(inside: string, entries: seq<Entry>, rest: string)
    requires inside != "" && inside[0] != '}' && ReadEntries(inside) == Some((entries, rest))
    ensures ReadObject("{" + inside) == Some((entries, rest))
  {
    assert ("{" + inside)[1..] == inside;
  }

  lemma NoMembers(rest: string)
    ensures ReadObject("{" + ("}" + rest)) == Some(([], rest))
  {
    assert ("{" + ("}" + rest))[2..] == rest;
  }

  /** The printed object is read as the members that are meant, in order. */
  lemma ObjectReads(parse: Parser, args: seq<Arg>, rest: string)
    requires GoodArgs(parse, args)
    ensures forall a :: a in args ==> IsValue(a.value)
    ensures ReadObject(PrintObject(Fields(parse, args)) + rest) == Some((Meant(parse, args), rest))
  {
    var inside := PrintFields(Fields(parse, args));
    Behind("{", inside, "}", rest);
    Behind("{" + inside, "}", rest, "");
    Behind("{", inside, "}" + rest, "");
    if args == [] {
      assert "" + ("}" + rest) == "}" + rest;
      NoMembers(rest);
    } else {
      FieldsRead(parse, args, rest);
      FieldsTail(parse, args, rest);
      ObjectOf(inside + ("}" + rest), Meant(parse, args), rest);
    }
  }

  /** For every tagged call: whoever reads the arguments gets the trimmed keys, in order, with the trimmed texts
      of the declared strings and the meaning of the other values. */
  lemma TaggedCallReads(parse: Parser, s: State, before: seq<Event>, name: string, after: seq<Event>, args: seq<Arg>)
    requires forall e :: e in before + after ==> IsArgEvent(e) || IsNeutral(e)
    requires TrimTrailing(name, -1) != ""
    requires GoodArgs(parse, args)
    requires ArgEvents(before) + ArgEvents(after) == Groups(args)
    ensures var es := [ToolOpen] + before + [ToolName(name)] + after + [ToolClose];
            && RunDefined(parse, s, es)
            && var calls := Run(parse, s, es).result.calls;
            && |calls| == |s.result.calls| + 1
            && ReadObject(calls[|calls| - 1].arguments) == Some((Meant(parse, args), ""))
    ensures forall i :: 0 <= i < |args| ==>
              && Meant(parse, args)[i].key == TrimKey(args[i].key)
              && (args[i].value.ArgStringValue? ==>
                    Meant(parse, args)[i].value == Str(TrimValue(args[i].value.text)))
  {
    TaggedCallPrints(parse, s, before, name, after, args);
    ObjectReads(parse, args, "");
    assert PrintObject(Fields(parse, args)) + "" == PrintObject(Fields(parse, args));
  }

  // ----- a call that is cut in a value

  /** What is written of a value before its argument is closed: a string without its closing quote, other JSON as it
      is, and of a list or an object that is cut, what there is of it. */
  function CutText(parse: Parser, e: Event): string
    requires IsValue(e)
  {
    var v := TrimValue(e.text);
    if e.ArgStringValue? then "\"" + Escape(v)
    else if v == "" then ""
    else
      var n := if v[0] in "[{" then QuoteNormalizer.Normalize(QuoteNormalizer.Outside, v) else v;
      match parse(n)
      case StringValue(value) => "\"" + Escape(value)
      case OtherValue => n
      case Invalid => if e.partial && v[0] in "[{" then n else "\"" + Escape(n)
  }

  lemma CutTextIsPiece(parse: Parser, e: Event)
    requires IsValue(e)
    ensures Piece(Rendered(parse, e), false) == CutText(parse, e)
  {
  }

  lemma {:induction false} AllArgEvents(es: seq<Event>)
    requires forall e :: e in es ==> IsArgEvent(e)
    ensures ArgEvents(es) == es && forall id :: LastId(es, id) == id
    decreases |es|
  {
    if es != [] {
      assert es[0] in es;
      AllArgEvents(es[1..]);
    }
  }

  lemma CutWrites(parse: Parser, t: string, n: nat, key: string, value: Event)
    requires IsValue(value)
    ensures var es := [ArgOpen, ArgName(key), value];
            && AccRuns(parse, Acc(t, n, false), es)
            && AccRun(parse, Acc(t, n, false), es).text == t + KeyText(n, key) + CutText(parse, value)
  {
    var a1 := AccStep(parse, Acc(t, n, false), ArgOpen);
    var a2 := AccStep(parse, a1, ArgName(key));
    var a3 := AccStep(parse, a2, value);
    CutTextIsPiece(parse, value);
    assert AccRuns(parse, a3, []) && AccRun(parse, a3, []) == a3;
    AccRunCons(parse, a2, value, []);
    AccRunCons(parse, a1, ArgName(key), [value] + []);
    AccRunCons(parse, Acc(t, n, false), ArgOpen, [ArgName(key)] + ([value] + []));
    assert [ArgOpen, ArgName(key), value] == [ArgOpen] + ([ArgName(key)] + ([value] + []));
  }

  lemma {:induction false} GroupsAreArgs(args: seq<Arg>)
    requires forall a :: a in args ==> IsValue(a.value)
    ensures forall e :: e in Groups(args) ==> IsArgEvent(e)
    decreases |args|
  {
    if args != [] {
      assert args[0] in args;
      GroupsAreArgs(args[1..]);
    }
  }

  lemma CutMembers(parse: Parser, args: seq<Arg>, key: string, cut: string)
    requires forall a :: a in args ==> IsValue(a.value)
    ensures "{" + Entries(parse, args, 0) + KeyText(|args|, key) + cut
         == "{" + PrintFields(Fields(parse, args)) + (if args == [] then "" else ",") + Quote(TrimKey(key)) + ":" + cut
  {
    EntriesArePrinted(parse, args, 0);
    var members := PrintFields(Fields(parse, args));
    assert "" + members == members;
    Regrouped("{" + members, if args == [] then "" else ",", Quote(TrimKey(key)), ":", cut);
  }

  lemma Regrouped(a: string, b: string, c: string, d: string, e: string)
    ensures a + (b + c + d) + e == a + b + c + d + e
  {
  }

  lemma CutRun(parse: Parser, s: State, args: seq<Arg>, key: string, value: Event, base: seq<ToolCall>)
    requires (forall a :: a in args ==> IsValue(a.value)) && IsValue(value)
    requires Receiving(s, base, true) && Orderly(s) && AccOf(s) == Acc("{", 0, false)
    ensures var es := Groups(args) + [ArgOpen, ArgName(key), value];
            && RunDefined(parse, s, es)
            && Receiving(Run(parse, s, es), base, true)
            && Tool(Run(parse, s, es)) == Tool(s).(arguments :=
                 "{" + Entries(parse, args, 0) + KeyText(|args|, key) + CutText(parse, value))
  {
    var a0, t := Acc("{", 0, false), "{" + Entries(parse, args, 0);
    var cut := [ArgOpen, ArgName(key), value];
    GroupsAreArgs(args);
    AllArgEvents(Groups(args) + cut);
    GroupsWrite(parse, "{", 0, args);
    CutWrites(parse, t, |args|, key, value);
    AccConcat(parse, a0, Groups(args), cut);
    ReceivingRun(parse, s, Groups(args) + cut, base, true);
  }

  /** A named call that is cut in a value shows the members before it, its key and what there is of the value. */
  lemma CutCallShows(parse: Parser, s: State, name: string, args: seq<Arg>, key: string, value: Event)
    requires TrimTrailing(name, -1) != ""
    requires (forall a :: a in args ==> IsValue(a.value)) && IsValue(value)
    ensures var es := [ToolOpen] + [ToolName(name)] + (Groups(args) + [ArgOpen, ArgName(key), value]);
            && RunDefined(parse, s, es)
            && Run(parse, s, es).result.calls == s.result.calls + [ToolCall(TrimTrailing(name, -1),
                 "{" + PrintFields(Fields(parse, args)) + (if args == [] then "" else ",")
                 + Quote(TrimKey(key)) + ":" + CutText(parse, value), "")]
  {
    var base, body := s.result.calls, Groups(args) + [ArgOpen, ArgName(key), value];
    var s0 := Step(parse, s, ToolOpen);
    NameKeepsArguments(parse, s0, name, base);
    var s1 := Step(parse, s0, ToolName(name));
    CutRun(parse, s1, args, key, value, base);
    CutMembers(parse, args, key, CutText(parse, value));
    SingleRun(parse, s, ToolOpen);
    SingleRun(parse, s0, ToolName(name));
    RunConcat(parse, s, [ToolOpen], [ToolName(name)]);
    RunConcat(parse, s, [ToolOpen] + [ToolName(name)], body);
    LastCall(Run(parse, s1, body), base);
  }

  lemma LastCall(s: State, base: seq<ToolCall>)
    requires Receiving(s, base, true)
    ensures s.result.calls == base + [Tool(s)]
  {
  }

  // ----- calls given as JSON

  /** Closing quotes are only dropped together with the opening one. */
  lemma StripQuotesIff(s: string, t: string)
    ensures s == "\"" + t + "\"" ==> StripQuotes(s) == t
    ensures (forall u: string :: s != "\"" + u + "\"") ==> StripQuotes(s) == s
  {
    if s == "\"" + t + "\"" {
      assert s[1..|s| - 1] == t;
    }
    if |s| >= 2 && s[0] == '"' && s[|s| - 1] == '"' {
      assert s == "\"" + s[1..|s| - 1] + "\"";
    }
  }

  lemma {:induction false} ScanRepeat(depth: int, n: nat)
    ensures ScanAll(Scan(depth, false, false), Repeat('}', n)) == Scan(depth - n, false, false)
    decreases n
  {
    if n > 0 {
      ScanRepeat(depth, n - 1);
      ScanConcat(Scan(depth, false, false), Repeat('}', n - 1), "}");
      ScanOne(Scan(depth - (n - 1), false, false), '}');
    }
  }

  lemma {:induction false} RepeatIs(c: char, n: nat)
    ensures |Repeat(c, n)| == n && forall i :: 0 <= i < n ==> Repeat(c, n)[i] == c
    decreases n
  {
    if n > 0 {
      RepeatIs(c, n - 1);
    }
  }

  /** Brace repair only adds closing braces. Outside a string it closes every open brace and opens none, and a
      text with nothing open is left alone. */
  lemma RepairCloses(args: string)
    ensures args <= CloseBraces(args)
    ensures forall i :: |args| <= i < |CloseBraces(args)| ==> CloseBraces(args)[i] == '}'
    ensures BraceDepth(args) <= 0 ==> CloseBraces(args) == args
    ensures BraceDepth(args) >= 0 && !ScanAll(Scan(0, false, false), args).inString ==> BraceDepth(CloseBraces(args)) == 0
  {
    var d := BraceDepth(args);
    if d <= 0 {
      assert args + "" == args;
    } else {
      RepeatIs('}', d);
      ScanConcat(Scan(0, false, false), args, Repeat('}', d));
      if !ScanAll(Scan(0, false, false), args).inString {
        EscapedInString(Scan(0, false, false), args);
        ScanRepeat(d, d);
      }
    }
  }

  lemma {:induction false} EscapedInString(st: Scan, s: string)
    requires st.escaped ==> st.inString
    ensures var st' := ScanAll(st, s); st'.escaped ==> st'.inString
    decreases |s|
  {
    if s != "" {
      EscapedInString(ScanChar(st, s[0]), s[1..]);
    }
  }

  /** A call given as JSON is being received: `text` are its arguments once they are `given`, wherever they
      are kept. */
  predicate Receives(s: State, base: seq<ToolCall>, name: string, text: string, id: string, named: bool, given: bool) {
    && HasTool(s) && !s.quotePending && Tool(s).id == id
    && if named then
         && s.current.LastTool? && s.pending.None? && s.result.calls[..|s.result.calls| - 1] == base
         && Tool(s).name == name && Tool(s).arguments == (if given then text else "{") && s.buffer == ""
       else
         && s.current.PendingTool? && s.result.calls == base
         && Tool(s).name == "" && Tool(s).arguments == "" && s.buffer == (if given then text else "")
  }

  lemma OtherNodeReceived(parse: Parser, s: State, e: Event, base: seq<ToolCall>, name: string, text: string,
                          id: string, named: bool, given: bool)
    requires Receives(s, base, name, text, id, named, given) && name != "" && text != "" && IsNeutral(e)
    ensures Receives(Step(parse, s, e), base, name, text, LastId([e], id), named, given)
  {
    assert [e][1..] == [];
    var id' := if e.ToolId? then StripQuotes(TrimTrailing(e.text, -1)) else id;
    assert LastId([e][1..], id') == id';
  }

  lemma NameReceived(parse: Parser, s: State, node: string, base: seq<ToolCall>, name: string, text: string,
                     id: string, named: bool, given: bool)
    requires Receives(s, base, name, text, id, named, given) && name != "" && text != "" && name == TrimTrailing(node, -1)
    ensures Receives(Step(parse, s, ToolName(node)), base, name, text, id, true, given)
  {
    var s' := Step(parse, s, ToolName(node));
    assert s'.result.calls[..|s'.result.calls| - 1] == base;
  }

  lemma ArgsReceived(parse: Parser, s: State, node: string, base: seq<ToolCall>, name: string, text: string,
                     id: string, named: bool, given: bool)
    requires Receives(s, base, name, text, id, named, given) && name != ""
    requires text == TrimTrailing(node, -1) && text != "" && text[0] == '{'
    ensures Receives(Step(parse, s, ToolArgs(node)), base, name, text, id, named, true)
  {
    var s' := Step(parse, s, ToolArgs(node));
    assert named ==> s'.result.calls[..|s'.result.calls| - 1] == base;
  }

  /** The nodes of a call given as JSON: its name, its arguments, and neutral nodes, in any order. */
  predicate JsonNodes(es: seq<Event>, name: string, args: string) {
    forall i :: 0 <= i < |es| ==> IsNeutral(es[i]) || es[i] == ToolName(name) || es[i] == ToolArgs(args)
  }

  lemma {:induction false} JsonRun(parse: Parser, s: State, es: seq<Event>, base: seq<ToolCall>, name: string,
                                   args: string, id: string, named: bool, given: bool)
    requires JsonNodes(es, name, args)
    requires TrimTrailing(name, -1) != "" && TrimTrailing(args, -1) != "" && TrimTrailing(args, -1)[0] == '{'
    requires Receives(s, base, TrimTrailing(name, -1), TrimTrailing(args, -1), id, named, given)
    ensures RunDefined(parse, s, es)
    ensures Receives(Run(parse, s, es), base, TrimTrailing(name, -1), TrimTrailing(args, -1), LastId(es, id),
                     named || ToolName(name) in es, given || ToolArgs(args) in es)
    decreases |es|
  {
    if es != [] {
      var e, n, t := es[0], TrimTrailing(name, -1), TrimTrailing(args, -1);
      var named', given' := named || e == ToolName(name), given || e == ToolArgs(args);
      var id' := LastId([e], id);
      assert [e][1..] == [] && es == [e] + es[1..];
      LastIdConcat([e], es[1..], id);
      if e == ToolName(name) {
        NameReceived(parse, s, name, base, n, t, id, named, given);
      } else if e == ToolArgs(args) {
        ArgsReceived(parse, s, args, base, n, t, id, named, given);
      } else {
        OtherNodeReceived(parse, s, e, base, n, t, id, named, given);
      }
      JsonRun(parse, Step(parse, s, e), es[1..], base, name, args, id', named', given');
    }
  }

  lemma CloseReceived(parse: Parser, s: State, base: seq<ToolCall>, name: string, text: string, id: string)
    requires Receives(s, base, name, text, id, true, true) && name != ""
    ensures Step(parse, s, ToolClose).result.calls == base + [ToolCall(name, CloseBraces(text), id)]
  {
    assert text + "" == text;
    var calls := StepClose(s).result.calls;
    assert calls[..|calls| - 1] == base;
  }

  lemma CompleteIsKept(text: string)
    requires JsonSyntax.IsOtherJson(text)
    ensures CloseBraces(text) == text
  {
    JsonSyntax.OtherJsonBalanced(text);
    assert ScanAll(Scan(0, false, false), text) == Scan(0, false, false);
    RepairCloses(text);
  }

  /** For every call given as JSON - opened, with a non-blank name and an object for arguments in either order
      and any neutral nodes around, and closed - the message gains one call with the trimmed text of the
      arguments. If they are complete nothing is added to it. */
  lemma JsonCallKeepsText(parse: Parser, s: State, body: seq<Event>, name: string, args: string)
    requires JsonNodes(body, name, args) && ToolName(name) in body && ToolArgs(args) in body
    requires TrimTrailing(name, -1) != "" && TrimTrailing(args, -1) != "" && TrimTrailing(args, -1)[0] == '{'
    ensures var es, text := [ToolOpen] + body + [ToolClose], TrimTrailing(args, -1);
            && RunDefined(parse, s, es)
            && Run(parse, s, es).result.calls
               == s.result.calls + [ToolCall(TrimTrailing(name, -1), CloseBraces(text), LastId(body, ""))]
            && (JsonSyntax.IsOtherJson(text) ==> CloseBraces(text) == text)
  {
    var base := s.result.calls;
    var s0 := Step(parse, s, ToolOpen);
    JsonRun(parse, s0, body, base, name, args, "", false, false);
    var s1 := Run(parse, s0, body);
    CloseReceived(parse, s1, base, TrimTrailing(name, -1), TrimTrailing(args, -1), LastId(body, ""));
    if JsonSyntax.IsOtherJson(TrimTrailing(args, -1)) {
      CompleteIsKept(TrimTrailing(args, -1));
    }
    SingleRun(parse, s, ToolOpen);
    RunConcat(parse, s, [ToolOpen], body);
    SingleRun(parse, s1, ToolClose);
    RunConcat(parse, s, [ToolOpen] + body, [ToolClose]);
  }
}
