/** The part of a chat message that streaming builds: text, reasoning text and tool calls. */
module ChatMessage {

  datatype ToolCall = ToolCall(name: string, arguments: string, id: string)

  datatype Message = Message(content: string, reasoning: string, calls: seq<ToolCall>)

  const EMPTY_CALL := ToolCall("", "", "")
  const EMPTY_MESSAGE := Message("", "", [])

  /** How one tool call may turn into the next version of itself while text streams in. */
  predicate CallGrows(prev: ToolCall, next: ToolCall) {
    && prev.name <= next.name
    && prev.arguments <= next.arguments
    && (prev.id == next.id || next.id != "")
  }

  /** The streaming order on messages: text only gets longer, finished calls are frozen, and only
      the last call may still change. */
  predicate Grows(prev: Message, next: Message) {
    && prev.content <= next.content
    && prev.reasoning <= next.reasoning
    && |prev.calls| <= |next.calls|
    && (|prev.calls| > 0 ==>
          && var last := |prev.calls| - 1;
          && prev.calls[..last] == next.calls[..last]
          && CallGrows(prev.calls[last], next.calls[last]))
  }

  lemma GrowsReflexive(m: Message)
    ensures Grows(m, m)
  {
  }

  lemma GrowsTransitive(a: Message, b: Message, c: Message)
    requires Grows(a, b) && Grows(b, c)
    ensures Grows(a, c)
  {
    if |a.calls| > 0 {
      var last := |a.calls| - 1;
      assert a.calls[..last] == b.calls[..last];
      assert b.calls[..last] == b.calls[..|b.calls| - 1][..last];
      assert c.calls[..last] == c.calls[..|b.calls| - 1][..last];
      if last < |b.calls| - 1 {
        assert b.calls[last] == b.calls[..|b.calls| - 1][last] == c.calls[..|b.calls| - 1][last] == c.calls[last];
      }
    }
  }
}
