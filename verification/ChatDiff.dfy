/** Deltas between successive versions of a streamed message (common/chat.cpp), and what a client
    that accumulates them ends up with. */
module ChatDiff {
  import opened Wrappers
  import opened ChatMessage

  /** One delta. `index` is the tool call it concerns, if any. */
  datatype Diff = Diff(reasoningDelta: string, contentDelta: string, index: Option<nat>, call: ToolCall)

  function TextDiff(reasoning: string, content: string): Diff {
    Diff(reasoning, content, None, EMPTY_CALL)
  }

  function CallDiff(index: nat, call: ToolCall): Diff {
    Diff("", "", Some(index), call)
  }

  // ----- the differ

  function StringDiff(last: string, current: string): (r: Result<string>)
    ensures r.Ok? <==> last <= current || current <= last
    ensures r.Ok? ==> (last + r.value == current <==> last <= current)
    ensures r.Ok? && !(last <= current) ==> r.value == ""
  {
    if last == "" then Ok(current)
    else if !(last <= current) then
      if current <= last then Ok("")
      else Throw("Invalid diff: not found at start")
    else Ok(current[|last|..])
  }

  function ReasoningDiffs(prev: Message, next: Message): Result<seq<Diff>> {
    if prev.reasoning == next.reasoning then Ok([])
    else
      var d :- StringDiff(prev.reasoning, next.reasoning);
      Ok([TextDiff(d, "")])
  }

  function ContentDiffs(prev: Message, next: Message): Result<seq<Diff>> {
    if prev.content == next.content then Ok([])
    else
      var d :- StringDiff(prev.content, next.content);
      Ok([TextDiff("", d)])
  }

  /** The delta for the call that was last in the previous message. */
  function LastCallDiffs(prev: Message, next: Message): Result<seq<Diff>>
    requires |prev.calls| <= |next.calls|
  {
    if prev.calls == [] then Ok([])
    else
      var idx := |prev.calls| - 1;
      var pref, newf := prev.calls[idx], next.calls[idx];
      if pref.name != newf.name && pref.name != "" && newf.name != "" && !(pref.name <= newf.name) then
        Throw("Invalid diff: tool call mismatch!")
      else
        var args :- StringDiff(pref.arguments, newf.arguments);
        var renamed := pref.id != newf.id || pref.name != newf.name;
        if args != "" || renamed then
          Ok([CallDiff(idx, if renamed then ToolCall(newf.name, args, newf.id) else ToolCall("", args, ""))])
        else
          Ok([])
  }

  /** One delta for each call from index `from` on. */
  function NewCallDiffs(calls: seq<ToolCall>, from: nat): seq<Diff>
    requires from <= |calls|
    decreases |calls| - from
  {
    if from == |calls| then [] else [CallDiff(from, calls[from])] + NewCallDiffs(calls, from + 1)
  }

  function Diffs(prev: Message, next: Message): Result<seq<Diff>> {
    var reasoning :- ReasoningDiffs(prev, next);
    var content :- ContentDiffs(prev, next);
    if |next.calls| < |prev.calls| then Throw("Invalid diff: now finding less tool calls!")
    else
      var last :- LastCallDiffs(prev, next);
      Ok(reasoning + content + last + NewCallDiffs(next.calls, |prev.calls|))
  }

  lemma {:induction false} NewCallDiffsSnoc(calls: seq<ToolCall>, from: nat, to: nat)
    requires from <= to < |calls|
    ensures NewCallDiffs(calls[..to + 1], from) == NewCallDiffs(calls[..to], from) + [CallDiff(to, calls[to])]
    decreases |calls| - from
  {
    if from < to {
      NewCallDiffsSnoc(calls, from + 1, to);
    } else {
      assert NewCallDiffs(calls[..to + 1], to + 1) == [];
    }
  }

  /** The step that patches the call that was last before. */
  method ComputeLastCallDiff(prev: Message, next: Message) returns (r: Result<seq<Diff>>)
    requires |prev.calls| <= |next.calls|
    ensures r == LastCallDiffs(prev, next)
  {
    if prev.calls == [] {
      return Ok([]);
    }
    var idx := |prev.calls| - 1;
    var pref, newf := prev.calls[idx], next.calls[idx];
    if pref.name != newf.name && pref.name != "" && newf.name != "" {
      var isPrefix := pref.name <= newf.name;
      if !isPrefix {
        return Throw("Invalid diff: tool call mismatch!");
      }
    }
    var args :- StringDiff(pref.arguments, newf.arguments);
    if args != "" || pref.id != newf.id || pref.name != newf.name {
      var delta := EMPTY_CALL;
      if pref.id != newf.id || pref.name != newf.name {
        delta := delta.(id := newf.id, name := newf.name);
      }
      delta := delta.(arguments := args);
      return Ok([CallDiff(idx, delta)]);
    }
    r := Ok([]);
  }

  /** The differ as written: it appends to a vector, throwing at the first text that did not grow. */
  method ComputeDiffs(prev: Message, next: Message) returns (r: Result<seq<Diff>>)
    ensures r == Diffs(prev, next)
  {
    var diffs: seq<Diff> := [];
    if prev.reasoning != next.reasoning {
      var d :- StringDiff(prev.reasoning, next.reasoning);
      diffs := [TextDiff(d, "")];
    }
    if prev.content != next.content {
      var d :- StringDiff(prev.content, next.content);
      diffs := diffs + [TextDiff("", d)];
    }
    if |next.calls| < |prev.calls| {
      return Throw("Invalid diff: now finding less tool calls!");
    }
    assert diffs == ReasoningDiffs(prev, next).value + ContentDiffs(prev, next).value;
    var last := ComputeLastCallDiff(prev, next);
    if last.Throw? {
      return last;
    }
    diffs := diffs + last.value;
    ghost var before := diffs;
    for i := |prev.calls| to |next.calls|
      invariant diffs == before + NewCallDiffs(next.calls[..i], |prev.calls|)
    {
      NewCallDiffsSnoc(next.calls, |prev.calls|, i);
      diffs := diffs + [CallDiff(i, next.calls[i])];
    }
    assert next.calls[..|next.calls|] == next.calls;
    r := Ok(diffs);
  }

  // ----- the client

  /** Appends empty calls until there are at least `n`. */
  function Pad(calls: seq<ToolCall>, n: nat): (r: seq<ToolCall>)
    ensures |r| >= n && |r| >= |calls| && calls <= r
    ensures |calls| >= n ==> r == calls
    decreases n - |calls|
  {
    if |calls| < n then Pad(calls + [EMPTY_CALL], n) else calls
  }

  /** Text is appended; name and id replace the old ones when the delta carries them. */
  function ApplyDelta(m: Message, d: Diff): Message {
    var calls := match d.index
      case None => m.calls
      case Some(i) =>
        var padded := Pad(m.calls, i + 1);
        var c := padded[i];
        padded[i := ToolCall(
          if d.call.name != "" then d.call.name else c.name,
          c.arguments + d.call.arguments,
          if d.call.id != "" then d.call.id else c.id)];
    Message(m.content + d.contentDelta, m.reasoning + d.reasoningDelta, calls)
  }

  function ApplyAll(m: Message, ds: seq<Diff>): Message
    decreases |ds|
  {
    if ds == [] then m else ApplyAll(ApplyDelta(m, ds[0]), ds[1..])
  }

  lemma {:induction false} ApplyAllConcat(m: Message, a: seq<Diff>, b: seq<Diff>)
    ensures ApplyAll(m, a + b) == ApplyAll(ApplyAll(m, a), b)
    decreases |a|
  {
    if a == [] {
      assert a + b == b;
    } else {
      assert (a + b)[0] == a[0] && (a + b)[1..] == a[1..] + b;
      ApplyAllConcat(ApplyDelta(m, a[0]), a[1..], b);
    }
  }

  lemma ApplyNewCall(m: Message, call: ToolCall)
    ensures ApplyDelta(m, CallDiff(|m.calls|, call)) == m.(calls := m.calls + [call])
  {
    var padded := Pad(m.calls, |m.calls| + 1);
    assert padded == m.calls + [EMPTY_CALL] by {
      assert Pad(m.calls + [EMPTY_CALL], |m.calls| + 1) == m.calls + [EMPTY_CALL];
    }
    assert m.content + "" == m.content && m.reasoning + "" == m.reasoning;
    assert "" + call.arguments == call.arguments;
  }

  /** Applying the new-call deltas to a message that has exactly the earlier calls pushes the rest. */
  lemma {:induction false} ApplyNewCalls(m: Message, calls: seq<ToolCall>, from: nat)
    requires from <= |calls| && |m.calls| == from
    ensures ApplyAll(m, NewCallDiffs(calls, from)) == m.(calls := m.calls + calls[from..])
    decreases |calls| - from
  {
    if from == |calls| {
      assert m.calls + calls[from..] == m.calls;
    } else {
      var ds := NewCallDiffs(calls, from);
      assert ds[1..] == NewCallDiffs(calls, from + 1);
      ApplyNewCall(m, calls[from]);
      ApplyNewCalls(m.(calls := m.calls + [calls[from]]), calls, from + 1);
      assert m.calls + [calls[from]] + calls[from + 1..] == m.calls + calls[from..];
    }
  }

  /** What the client holds after all deltas: the new calls are pushed, the last old call is patched,
      earlier calls are left alone. */
  function Patched(prev: Message, next: Message): Message
    requires Diffs(prev, next).Ok?
  {
    var calls :=
      if prev.calls == [] then []
      else
        var idx := |prev.calls| - 1;
        var pref, newf := prev.calls[idx], next.calls[idx];
        prev.calls[..idx] + [ToolCall(
          if newf.name != "" then newf.name else pref.name,
          pref.arguments + StringDiff(pref.arguments, newf.arguments).value,
          if newf.id != "" then newf.id else pref.id)];
    Message(
      prev.content + (if prev.content == next.content then "" else StringDiff(prev.content, next.content).value),
      prev.reasoning + (if prev.reasoning == next.reasoning then "" else StringDiff(prev.reasoning, next.reasoning).value),
      calls + next.calls[|prev.calls|..])
  }

  lemma ApplyOne(m: Message, d: Diff)
    ensures ApplyAll(m, [d]) == ApplyDelta(m, d)
  {
    assert [d][1..] == [];
    assert ApplyAll(ApplyDelta(m, d), []) == ApplyDelta(m, d);
  }

  lemma ApplyReasoningContent(prev: Message, next: Message)
    requires Diffs(prev, next).Ok?
    ensures var ds := ReasoningDiffs(prev, next).value + ContentDiffs(prev, next).value;
            ApplyAll(prev, ds) == Patched(prev, next).(calls := prev.calls)
  {
    var rs, cs := ReasoningDiffs(prev, next).value, ContentDiffs(prev, next).value;
    ApplyAllConcat(prev, rs, cs);
    var m := prev.(reasoning := Patched(prev, next).reasoning);
    assert ApplyAll(prev, rs) == m by {
      if prev.reasoning != next.reasoning {
        ApplyOne(prev, rs[0]);
        assert prev.content + "" == prev.content;
      } else {
        assert prev.reasoning + "" == prev.reasoning;
      }
    }
    if prev.content != next.content {
      ApplyOne(m, cs[0]);
      assert m.reasoning + "" == m.reasoning;
    } else {
      assert prev.content + "" == prev.content;
    }
  }

  lemma NothingToPatch(prev: Message, next: Message)
    requires Diffs(prev, next).Ok? && prev.calls != [] && LastCallDiffs(prev, next).value == []
    ensures Patched(prev, next).calls[..|prev.calls|] == prev.calls
  {
    var idx, p := |prev.calls| - 1, Patched(prev, next).calls[..|prev.calls|];
    assert p == prev.calls[..idx] + [p[idx]];
    assert prev.calls[idx].arguments + "" == prev.calls[idx].arguments;
    assert p[idx] == prev.calls[idx];
  }

  lemma ApplyLastCall(m: Message, prev: Message, next: Message)
    requires Diffs(prev, next).Ok? && m.calls == prev.calls
    ensures ApplyAll(m, LastCallDiffs(prev, next).value)
         == m.(calls := Patched(prev, next).calls[..|prev.calls|])
  {
    var ds := LastCallDiffs(prev, next).value;
    var p := Patched(prev, next).calls[..|prev.calls|];
    if prev.calls == [] {
      assert p == [];
    } else if ds == [] {
      NothingToPatch(prev, next);
    } else {
      var idx := |prev.calls| - 1;
      assert p == prev.calls[..idx] + [p[idx]];
      ApplyOne(m, ds[0]);
      assert m.content + "" == m.content && m.reasoning + "" == m.reasoning;
      assert Pad(m.calls, idx + 1) == m.calls;
      assert m.calls[idx := p[idx]] == p;
    }
  }

  lemma ApplyDiffs(prev: Message, next: Message)
    requires Diffs(prev, next).Ok?
    ensures ApplyAll(prev, Diffs(prev, next).value) == Patched(prev, next)
  {
    var a := ReasoningDiffs(prev, next).value + ContentDiffs(prev, next).value;
    var b := LastCallDiffs(prev, next).value;
    var c := NewCallDiffs(next.calls, |prev.calls|);
    ApplyAllConcat(prev, a + b, c);
    ApplyAllConcat(prev, a, b);
    ApplyReasoningContent(prev, next);
    var m := Patched(prev, next).(calls := prev.calls);
    ApplyLastCall(m, prev, next);
    var m1 := m.(calls := Patched(prev, next).calls[..|prev.calls|]);
    ApplyNewCalls(m1, next.calls, |prev.calls|);
    assert Patched(prev, next).calls[|prev.calls|..] == next.calls[|prev.calls|..];
    assert m1.calls + next.calls[|prev.calls|..] == Patched(prev, next).calls;
  }

  // ----- main results

  predicate Comparable(a: string, b: string) {
    a <= b || b <= a
  }

  /** The differ throws exactly when some text neither grew nor shrank, a call disappeared, or the last
      call was renamed to something that does not extend its old name. */
  lemma DiffsThrowIff(prev: Message, next: Message)
    ensures Diffs(prev, next).Ok? <==>
            && Comparable(prev.reasoning, next.reasoning)
            && Comparable(prev.content, next.content)
            && |prev.calls| <= |next.calls|
            && (prev.calls != [] ==>
                  var pref, newf := prev.calls[|prev.calls| - 1], next.calls[|prev.calls| - 1];
                  && Comparable(pref.arguments, newf.arguments)
                  && (pref.name <= newf.name || newf.name == ""))
  {
  }

  /** What was added to a text; nothing if it shrank. */
  function Added(before: string, now: string): string {
    if before <= now then now[|before|..] else ""
  }

  lemma DiffIsAdded(last: string, current: string)
    requires StringDiff(last, current).Ok?
    ensures StringDiff(last, current).value == Added(last, current)
  {
    if last <= current {
      var d := StringDiff(last, current).value;
      assert last + d == current;
      assert d == (last + d)[|last|..];
    }
  }

  lemma LastDeltaIs(prev: Message, next: Message)
    requires |prev.calls| <= |next.calls| && LastCallDiffs(prev, next).Ok?
    ensures prev.calls == [] ==> LastCallDiffs(prev, next).value == []
    ensures prev.calls != [] ==>
              var was, now := prev.calls[|prev.calls| - 1], next.calls[|prev.calls| - 1];
              var same, args := was.name == now.name && was.id == now.id, Added(was.arguments, now.arguments);
              LastCallDiffs(prev, next).value ==
              if same && args == "" then []
              else if same then [Diff("", "", Some(|prev.calls| - 1), ToolCall("", args, ""))]
              else [Diff("", "", Some(|prev.calls| - 1), ToolCall(now.name, args, now.id))]
  {
    if prev.calls != [] {
      DiffIsAdded(prev.calls[|prev.calls| - 1].arguments, next.calls[|prev.calls| - 1].arguments);
    }
  }

  /** The deltas of the new calls, one by one. */
  function NewDeltas(calls: seq<ToolCall>, from: nat): (r: seq<Diff>)
    requires from <= |calls|
  {
    seq(|calls| - from, i requires 0 <= i < |calls| - from => Diff("", "", Some(from + i), calls[from + i]))
  }

  lemma NewDeltasHead(calls: seq<ToolCall>, from: nat)
    requires from < |calls|
    ensures NewDeltas(calls, from) == [Diff("", "", Some(from), calls[from])] + NewDeltas(calls, from + 1)
  {
  }

  lemma {:induction false} NewDeltasAre(calls: seq<ToolCall>, from: nat)
    requires from <= |calls|
    ensures NewCallDiffs(calls, from) == NewDeltas(calls, from)
    decreases |calls| - from
  {
    if from < |calls| {
      NewDeltasHead(calls, from);
      NewDeltasAre(calls, from + 1);
    }
  }

  /** Which deltas are sent: one with what was added to the reasoning and one with what was added to the content,
      each only if that text changed; one for the call that was last, with what was added to its arguments and,
      only if its name or id changed, both of these, or none if nothing changed; and one for each new call. */
  lemma DeltasAre(prev: Message, next: Message)
    requires Diffs(prev, next).Ok?
    ensures |prev.calls| <= |next.calls|
    ensures var none := ToolCall("", "", "");
            var reasoning :=
              if prev.reasoning == next.reasoning then []
              else [Diff(Added(prev.reasoning, next.reasoning), "", None, none)];
            var content :=
              if prev.content == next.content then [] else [Diff("", Added(prev.content, next.content), None, none)];
            var last :=
              if prev.calls == [] then []
              else
                var was, now := prev.calls[|prev.calls| - 1], next.calls[|prev.calls| - 1];
                var same, args := was.name == now.name && was.id == now.id, Added(was.arguments, now.arguments);
                if same && args == "" then []
                else [Diff("", "", Some(|prev.calls| - 1),
                           if same then ToolCall("", args, "") else ToolCall(now.name, args, now.id))];
            Diffs(prev, next).value == reasoning + content + last + NewDeltas(next.calls, |prev.calls|)
  {
    if prev.reasoning != next.reasoning {
      DiffIsAdded(prev.reasoning, next.reasoning);
    }
    if prev.content != next.content {
      DiffIsAdded(prev.content, next.content);
    }
    LastDeltaIs(prev, next);
    NewDeltasAre(next.calls, |prev.calls|);
  }

  /** The deltas rebuild the new message exactly when the message grew. */
  lemma DiffsRebuildIff(prev: Message, next: Message)
    ensures (Diffs(prev, next).Ok? && ApplyAll(prev, Diffs(prev, next).value) == next) <==> Grows(prev, next)
  {
    DiffsThrowIff(prev, next);
    if Diffs(prev, next).Ok? {
      ApplyDiffs(prev, next);
      PatchedIff(prev, next);
    }
  }

  lemma PatchedIff(prev: Message, next: Message)
    requires Diffs(prev, next).Ok?
    ensures Patched(prev, next) == next <==> Grows(prev, next)
  {
    var p := Patched(prev, next);
    assert p.content == next.content <==> prev.content <= next.content by {
      if prev.content == next.content { assert prev.content + "" == prev.content; }
    }
    assert p.reasoning == next.reasoning <==> prev.reasoning <= next.reasoning by {
      if prev.reasoning == next.reasoning { assert prev.reasoning + "" == prev.reasoning; }
    }
    if prev.calls == [] {
      assert p.calls == next.calls;
    } else {
      var idx := |prev.calls| - 1;
      var pref, newf := prev.calls[idx], next.calls[idx];
      assert p.calls[idx] == newf <==> CallGrows(pref, newf);
      assert p.calls[..idx] == prev.calls[..idx];
      assert p.calls[idx + 1..] == next.calls[idx + 1..];
      assert p.calls == p.calls[..idx] + [p.calls[idx]] + p.calls[idx + 1..];
      assert next.calls == next.calls[..idx] + [newf] + next.calls[idx + 1..];
    }
  }

  /** All deltas of a chain of messages, in the order they are sent. */
  function ChainDiffs(chain: seq<Message>): Result<seq<Diff>>
    requires chain != []
  {
    if |chain| == 1 then Ok([])
    else
      var first :- Diffs(chain[0], chain[1]);
      var rest :- ChainDiffs(chain[1..]);
      Ok(first + rest)
  }

  predicate GrowingChain(chain: seq<Message>) {
    forall i :: 0 < i < |chain| ==> Grows(chain[i - 1], chain[i])
  }

  /** Along any growing chain the differ never throws, and a client that starts from the first message
      and applies every delta holds the last message. */
  lemma {:induction false} ChainRebuilds(chain: seq<Message>)
    requires chain != [] && GrowingChain(chain)
    ensures ChainDiffs(chain).Ok?
    ensures ApplyAll(chain[0], ChainDiffs(chain).value) == chain[|chain| - 1]
    decreases |chain|
  {
    if |chain| > 1 {
      assert Grows(chain[1 - 1], chain[1]);
      DiffsRebuildIff(chain[0], chain[1]);
      forall i | 0 < i < |chain[1..]|
        ensures Grows(chain[1..][i - 1], chain[1..][i])
      {
        assert Grows(chain[(i + 1) - 1], chain[i + 1]);
      }
      ChainRebuilds(chain[1..]);
      ApplyAllConcat(chain[0], Diffs(chain[0], chain[1]).value, ChainDiffs(chain[1..]).value);
    }
  }
}
