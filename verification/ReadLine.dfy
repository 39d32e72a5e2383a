/** The key loop of the line editor, its history, and what Enter returns (common/console.cpp). */
module ReadLine {
  import opened Bytes
  import opened Utf8
  import opened LineEditor
  import opened LineLoad

  // ----- history

  /** The stored history is the bytes of the history texts. */
  ghost predicate HistoryInStep(entries: seq<seq<Byte>>, viewing: Viewing, backup: seq<Byte>, p: Pad) {
    && PadOk(p)
    && |entries| == |p.history|
    && (forall i {:trigger EncodeAll(p.history[i])} :: 0 <= i < |entries| ==> entries[i] == EncodeAll(p.history[i]))
    && viewing == p.viewing && backup == EncodeAll(p.backup)
  }

  function Stored(entries: seq<seq<Byte>>, line: seq<Byte>): seq<seq<Byte>> {
    if entries == [] || entries[|entries| - 1] != line then entries + [line] else entries
  }

  class History {
    var entries: seq<seq<Byte>>
    var viewing: Viewing
    var backup: seq<Byte>

    ghost predicate Matches(p: Pad)
      reads this
    {
      HistoryInStep(entries, viewing, backup, p)
    }

    constructor ()
      ensures entries == [] && viewing == NotViewing && backup == []
    {
      entries, viewing, backup := [], NotViewing, [];
    }

    method EndViewing()
      modifies this`viewing, this`backup
      ensures viewing == NotViewing && backup == []
    {
      viewing, backup := NotViewing, [];
    }

    method BeginViewing(line: seq<Byte>)
      modifies this`viewing, this`backup
      ensures viewing == At(|entries|) && backup == line
    {
      backup := line;
      viewing := At(|entries|);
    }

    /** An empty line is not stored and does not end viewing; a repeated line is not stored twice. */
    method Add(line: seq<Byte>)
      modifies this
      ensures line == [] ==> unchanged(this)
      ensures line != [] ==> viewing == NotViewing && backup == []
      ensures line != [] ==> entries == Stored(old(entries), line)
    {
      if line == [] {
        return;
      }
      if entries == [] || entries[|entries| - 1] != line {
        entries := entries + [line];
      }
      EndViewing();
    }

    method Prev() returns (found: bool, line: seq<Byte>)
      requires viewing.At? ==> viewing.index <= |entries|
      modifies this`viewing
      ensures found <==> entries != [] && old(viewing).At?
      ensures !found ==> viewing == old(viewing)
      ensures found ==> var i := if old(viewing).index > 0 then old(viewing).index - 1 else 0;
                        viewing == At(i) && line == entries[i]
    {
      line := [];
      if entries == [] {
        return false, [];
      }
      if viewing.NotViewing? {
        return false, [];
      }
      if viewing.index > 0 {
        viewing := At(viewing.index - 1);
      }
      return true, entries[viewing.index];
    }

    method Next() returns (found: bool, line: seq<Byte>)
      modifies this`viewing, this`backup
      ensures found <==> entries != [] && old(viewing).At?
      ensures !found ==> viewing == old(viewing) && backup == old(backup)
      ensures found ==> var i := old(viewing).index + 1;
                        if i >= |entries| then line == old(backup) && viewing == NotViewing && backup == []
                        else viewing == At(i) && line == entries[i] && backup == old(backup)
    {
      if entries == [] || viewing.NotViewing? {
        return false, [];
      }
      viewing := At(viewing.index + 1);
      if viewing.index >= |entries| {
        line := backup;
        EndViewing();
      } else {
        line := entries[viewing.index];
      }
      found := true;
    }
  }

  // ----- one key

  /** Keys that only move in or change the line. */
  method EditLine(b: Buffer, k: Key, isSpace: int -> bool, ghost p: Pad) returns (r: Buffer)
    requires PadOk(p) && IsKey(k) && InStep(b, p.text, p.pos)
    requires !k.Up? && !k.Down? && !k.Complete?
    ensures InStep(r, Edit(p, k, isSpace).text, Edit(p, k, isSpace).pos)
  {
    match k
    case Insert(c, answer) => r := InsertChar(b, c, answer, p.text);
    case Backspace => r := EraseBefore(b, p.text);
    case Delete => r := DeleteAtCursor(b, p.text);
    case Left => r := MoveLeft(b, p.text);
    case Right => r := MoveRight(b, p.text);
    case WordLeft => r := MoveWordLeft(b, isSpace, p.text);
    case WordRight => r := MoveWordRight(b, isSpace, p.text);
    case Home =>
      r := MoveToLineStart(b);
      OffsetEnds(p.text);
    case End => r := MoveToLineEnd(b, p.text);
  }

  lemma CharsUpToEnd(text: seq<int>, k: nat)
    requires IsText(text) && k <= |text|
    ensures CharsUpTo(text, -1, k) == |text|
    decreases |text| - k
  {
    if k < |text| {
      CharsUpToEnd(text, k + 1);
    }
  }

  /** Shows a line with the cursor at its end. */
  method ShowLine(line: seq<Byte>, b: Buffer, measure: int -> int, ghost text: seq<int>) returns (r: Buffer)
    requires ColumnOk(b) && IsText(text) && line == EncodeAll(text)
    ensures InStep(r, text, |text|)
  {
    CharsUpToEnd(text, 0);
    r := SetLineContents(line, b, -1, measure);
    LoadedText(r, text, -1, measure);
  }

  /** The place after one entry back. */
  function PlaceBack(viewing: Viewing, n: nat): Viewing {
    var at := if viewing.At? then viewing.index else n;
    At(if n > 0 && at > 0 then at - 1 else if n > 0 then 0 else at)
  }

  /** What the history object holds after the up key. */
  lemma UpInStep(entries: seq<seq<Byte>>, viewing: Viewing, backup: seq<Byte>, line: seq<Byte>, p: Pad)
    requires HistoryInStep(entries, viewing, backup, p) && line == EncodeAll(p.text) && IsText(p.text)
    ensures var q := HistoryUp(p);
            && q.viewing == PlaceBack(viewing, |entries|)
            && HistoryInStep(entries, q.viewing, if viewing.At? then backup else line, q)
            && if entries == [] then q.text == p.text && q.pos == p.pos
               else q.viewing.index < |entries| && EncodeAll(q.text) == entries[q.viewing.index] && q.pos == |q.text|
  {
  }

  /** Begins viewing if need be, and goes one entry back. */
  method StepBack(h: History, current: seq<Byte>) returns (found: bool, line: seq<Byte>)
    requires h.viewing.At? ==> h.viewing.index <= |h.entries|
    modifies h
    ensures h.entries == old(h.entries) && found == (h.entries != [])
    ensures h.backup == if old(h.viewing).At? then old(h.backup) else current
    ensures h.viewing == PlaceBack(old(h.viewing), |h.entries|)
    ensures found ==> h.viewing.index < |h.entries| && line == h.entries[h.viewing.index]
  {
    if h.viewing.NotViewing? {
      h.BeginViewing(current);
    }
    found, line := h.Prev();
  }

  method HistoryPrev(b: Buffer, h: History, measure: int -> int, ghost p: Pad) returns (r: Buffer)
    requires InStep(b, p.text, p.pos) && h.Matches(p)
    modifies h
    ensures h.Matches(HistoryUp(p)) && InStep(r, HistoryUp(p).text, HistoryUp(p).pos)
  {
    UpInStep(h.entries, h.viewing, h.backup, b.line, p);
    var found, line := StepBack(h, b.line);
    r := b;
    if found {
      r := ShowLine(line, b, measure, HistoryUp(p).text);
    }
  }

  lemma DownInStep(entries: seq<seq<Byte>>, viewing: Viewing, backup: seq<Byte>, p: Pad)
    requires HistoryInStep(entries, viewing, backup, p)
    ensures var q := HistoryDown(p);
            if viewing.NotViewing? || entries == [] then q == p
            else
              var i := viewing.index + 1;
              && q.pos == |q.text|
              && if i >= |entries| then HistoryInStep(entries, NotViewing, [], q) && EncodeAll(q.text) == backup
                 else HistoryInStep(entries, At(i), backup, q) && EncodeAll(q.text) == entries[i]
  {
  }

  method HistoryNext(b: Buffer, h: History, measure: int -> int, ghost p: Pad) returns (r: Buffer)
    requires InStep(b, p.text, p.pos) && h.Matches(p)
    modifies h
    ensures h.Matches(HistoryDown(p)) && InStep(r, HistoryDown(p).text, HistoryDown(p).pos)
  {
    DownInStep(h.entries, h.viewing, h.backup, p);
    r := b;
    if h.viewing.At? {
      var found, line := h.Next();
      if found {
        r := ShowLine(line, b, measure, HistoryDown(p).text);
      }
    }
  }

  method ApplyCompletion(b: Buffer, k: Key, measure: int -> int, ghost p: Pad, isSpace: int -> bool) returns (r: Buffer)
    requires PadOk(p) && IsKey(k) && k.Complete? && InStep(b, p.text, p.pos)
    ensures InStep(r, Edit(p, k, isSpace).text, Edit(p, k, isSpace).pos)
  {
    var candidate := EncodeAll(k.candidate);
    r := b;
    if candidate == b.line {
      EncodeInjective(k.candidate, p.text);
    }
    if k.others || candidate != b.line {
      r := SetLineContents(candidate, b, k.cursor, measure);
      LoadedText(r, k.candidate, k.cursor, measure);
    }
  }

  /** The highlight flag is only looked at with a line to look at. */
  predicate Defined(p: Pad, k: Key) {
    p.special && !k.Complete? ==> p.text != []
  }

  /** Any key but completion, without the highlight. */
  method ApplyKey(b: Buffer, h: History, k: Key, isSpace: int -> bool, measure: int -> int, ghost p: Pad) returns (r: Buffer)
    requires IsKey(k) && !k.Complete? && InStep(b, p.text, p.pos) && h.Matches(p)
    modifies h
    ensures h.Matches(Edit(p, k, isSpace)) && InStep(r, Edit(p, k, isSpace).text, Edit(p, k, isSpace).pos)
  {
    EditKeepsOk(p, k, isSpace);
    if k.Up? {
      r := HistoryPrev(b, h, measure, p);
    } else if k.Down? {
      r := HistoryNext(b, h, measure, p);
    } else {
      r := EditLine(b, k, isSpace, p);
      EditLeavesHistory(p, k, isSpace);
    }
  }

  lemma EditLeavesHistory(p: Pad, k: Key, isSpace: int -> bool)
    requires PadOk(p) && IsKey(k) && !k.Up? && !k.Down?
    ensures var q := Edit(p, k, isSpace);
            q.history == p.history && q.viewing == p.viewing && q.backup == p.backup && q.special == p.special
  {
  }

  method EndsInSlash(line: seq<Byte>, ghost text: seq<int>) returns (special: bool)
    requires IsText(text) && line == EncodeAll(text)
    ensures special == EndsSpecial(text)
  {
    LastByte(text);
    special := line != [] && (line[|line| - 1] == 0x5C || line[|line| - 1] == 0x2F);
  }

  method PressKey(b: Buffer, special: bool, h: History, k: Key, isSpace: int -> bool, measure: int -> int, ghost p: Pad)
    returns (r: Buffer, special': bool)
    requires IsKey(k) && InStep(b, p.text, p.pos) && h.Matches(p) && special == p.special && Defined(p, k)
    modifies h
    ensures h.Matches(Press(p, k, isSpace))
    ensures InStep(r, Press(p, k, isSpace).text, Press(p, k, isSpace).pos)
    ensures special' == Press(p, k, isSpace).special
  {
    special' := special;
    if k.Complete? {
      r := ApplyCompletion(b, k, measure, p, isSpace);
      EditKeepsOk(p, k, isSpace);
      EditLeavesHistory(p, k, isSpace);
      return;
    }
    r := ApplyKey(b, h, k, isSpace, measure, p);
    special' := EndsInSlash(r.line, Edit(p, k, isSpace).text);
  }

  // ----- every run of keys

  /** No key of the run looks at the highlight of an empty line. */
  predicate RunDefined(p: Pad, ks: seq<Key>, isSpace: int -> bool)
    requires PadOk(p) && forall i :: 0 <= i < |ks| ==> IsKey(ks[i])
    decreases |ks|
  {
    EditKeepsOk(p, if ks == [] then Home else ks[0], isSpace);
    ks == [] || (Defined(p, ks[0]) && RunDefined(Press(p, ks[0], isSpace), ks[1..], isSpace))
  }

  /** Over every run of keys the editor is the code-point editor: the line is the UTF-8 of its text, there is
      one width per code point, both cursors stand at its cursor, and the terminal cursor stands behind the
      widths of the characters before it. */
  method PressKeys(b: Buffer, special: bool, h: History, ks: seq<Key>, isSpace: int -> bool, measure: int -> int,
                   ghost p: Pad)
    returns (r: Buffer, special': bool)
    requires InStep(b, p.text, p.pos) && h.Matches(p) && special == p.special
    requires forall i :: 0 <= i < |ks| ==> IsKey(ks[i])
    requires RunDefined(p, ks, isSpace)
    modifies h
    ensures h.Matches(PressAll(p, ks, isSpace))
    ensures InStep(r, PressAll(p, ks, isSpace).text, PressAll(p, ks, isSpace).pos)
    ensures special' == PressAll(p, ks, isSpace).special
  {
    r, special' := b, special;
    ghost var q := p;
    for i := 0 to |ks|
      invariant h.Matches(q) && InStep(r, q.text, q.pos) && special' == q.special
      invariant RunDefined(q, ks[i..], isSpace)
      invariant PressAll(q, ks[i..], isSpace) == PressAll(p, ks, isSpace)
    {
      assert ks[i..][0] == ks[i] && ks[i..][1..] == ks[i + 1..];
      r, special' := PressKey(r, special', h, ks[i], isSpace, measure, q);
      q := Press(q, ks[i], isSpace);
    }
  }

  // ----- the highlight flag

  /** The flag is set only when the line ends in a slash or a backslash. */
  predicate SpecialOk(p: Pad) {
    p.special ==> EndsSpecial(p.text)
  }

  /** Every key but completion keeps the flag right; completion keeps it right exactly when the flag was
      not set or the completed line ends in a slash or a backslash too. */
  lemma SpecialKeptIff(p: Pad, k: Key, isSpace: int -> bool)
    requires PadOk(p) && IsKey(k) && SpecialOk(p)
    ensures SpecialOk(Press(p, k, isSpace)) <==>
              (k.Complete? && (k.others || k.candidate != p.text) ==> !p.special || EndsSpecial(k.candidate))
  {
  }

  lemma {:induction false} SpecialInRuns(p: Pad, ks: seq<Key>, isSpace: int -> bool)
    requires PadOk(p) && SpecialOk(p)
    requires forall i :: 0 <= i < |ks| ==> IsKey(ks[i]) && !ks[i].Complete?
    ensures RunDefined(p, ks, isSpace) && SpecialOk(PressAll(p, ks, isSpace))
    decreases |ks|
  {
    if ks != [] {
      EditKeepsOk(p, ks[0], isSpace);
      SpecialKeptIff(p, ks[0], isSpace);
      SpecialInRuns(Press(p, ks[0], isSpace), ks[1..], isSpace);
    }
  }

  // ----- what Enter (or end of input) returns

  const BACKSLASH: Byte := 0x5C
  const SPACE: Byte := 0x20
  const NEWLINE: Byte := 0x0A

  /** The line before history storage, and whether more input is wanted. */
  function Taken(line: seq<Byte>, special: bool, eof: bool, multiline: bool): (seq<Byte>, bool)
    requires special ==> line != []
  {
    if special then
      var rest := line[..|line| - 1];
      if line[|line| - 1] == BACKSLASH then (rest + [NEWLINE], !multiline)
      else if rest == [SPACE] then ([], false)
      else (rest, false)
    else if eof then (line, false)
    else (line + [NEWLINE], multiline)
  }

  function DropNewline(line: seq<Byte>): seq<Byte> {
    if line != [] && line[|line| - 1] == NEWLINE then line[..|line| - 1] else line
  }

  /** What the caller gets: a stored line loses its newline. */
  function Returned(line: seq<Byte>, special: bool, eof: bool, multiline: bool): (seq<Byte>, bool)
    requires special ==> line != []
  {
    var t := Taken(line, special, eof, multiline);
    (if eof then t.0 else DropNewline(t.0), t.1)
  }

  method Submit(line: seq<Byte>, special: bool, eof: bool, multiline: bool, h: History) returns (out: seq<Byte>, hasMore: bool)
    requires special ==> line != []
    modifies h
    ensures (out, hasMore) == Returned(line, special, eof, multiline)
    ensures eof || out == [] ==> unchanged(h)
    ensures !eof && out != [] ==> h.entries == Stored(old(h.entries), out) && h.viewing == NotViewing && h.backup == []
  {
    out, hasMore := TakeLine(line, special, eof, multiline);
    if !eof && out != [] {
      if out[|out| - 1] == NEWLINE {
        out := out[..|out| - 1];
      }
      h.Add(out);
    }
  }

  method TakeLine(line: seq<Byte>, special: bool, eof: bool, multiline: bool) returns (out: seq<Byte>, hasMore: bool)
    requires special ==> line != []
    ensures (out, hasMore) == Taken(line, special, eof, multiline)
  {
    out, hasMore := line, multiline;
    if special {
      var last := out[|out| - 1];
      out := out[..|out| - 1];
      if last == BACKSLASH {
        out := out + [NEWLINE];
        hasMore := !hasMore;
      } else {
        if |out| == 1 && out[0] == SPACE {
          out := [];
        }
        hasMore := false;
      }
    } else if eof {
      hasMore := false;
    } else {
      out := out + [NEWLINE];
    }
  }

  lemma DropLastBytes(text: seq<int>)
    requires IsText(text) && text != [] && text[|text| - 1] < 0x80
    ensures var line := EncodeAll(text);
            line != [] && line[..|line| - 1] == EncodeAll(text[..|text| - 1]) && line[|line| - 1] == text[|text| - 1]
  {
    var k := |text| - 1;
    EncodeAt(text, k);
    assert text[..k + 1] == text;
    assert EncodeAll(text) == EncodeAll(text[..k]) + [text[k]];
  }

  lemma SpaceAlone(text: seq<int>)
    requires IsText(text)
    ensures EncodeAll(text) == [SPACE] <==> text == [0x20]
  {
    EncodeOne(0x20);
    if EncodeAll(text) == [SPACE] {
      EncodeInjective(text, [0x20]);
    }
  }

  /** The same choices on code points: the highlighted character goes, a backslash stands for a line break,
      and a line break at the end is dropped unless the input ended. */
  function TakenText(text: seq<int>, special: bool, eof: bool): seq<int> {
    if special && text != [] then
      var rest := text[..|text| - 1];
      if text[|text| - 1] == 0x5C then rest + [0x0A] else if rest == [0x20] then [] else rest
    else if eof then text
    else text + [0x0A]
  }

  function DropBreak(text: seq<int>): seq<int> {
    if text != [] && text[|text| - 1] == 0x0A then text[..|text| - 1] else text
  }

  function ReturnedText(text: seq<int>, special: bool, eof: bool): seq<int> {
    if eof then TakenText(text, special, eof) else DropBreak(TakenText(text, special, eof))
  }

  lemma SnocBytes(text: seq<int>, c: int)
    requires IsText(text) && 0 <= c < 0x80
    ensures IsText(text + [c]) && EncodeAll(text + [c]) == EncodeAll(text) + [c]
  {
    EncodeConcat(text, [c]);
    EncodeOne(c);
  }

  lemma TakenBytes(text: seq<int>, special: bool, eof: bool, multiline: bool)
    requires IsText(text) && (special ==> EndsSpecial(text))
    ensures special ==> EncodeAll(text) != []
    ensures IsText(TakenText(text, special, eof))
    ensures Taken(EncodeAll(text), special, eof, multiline).0 == EncodeAll(TakenText(text, special, eof))
  {
    if special {
      DropLastBytes(text);
      var rest := text[..|text| - 1];
      SpaceAlone(rest);
      SnocBytes(rest, 0x0A);
    } else {
      SnocBytes(text, 0x0A);
    }
  }

  /** Only a line break ends in the byte of one. */
  lemma LastIsBreakIff(text: seq<int>)
    requires IsText(text) && text != []
    ensures EncodeAll(text) != []
    ensures EncodeAll(text)[|EncodeAll(text)| - 1] == NEWLINE <==> text[|text| - 1] == 0x0A
  {
    var e := Encode(text[|text| - 1]);
    LastByteIs(text, e);
    assert |e| > 1 ==> IsContinuation(e[|e| - 1]);
  }

  lemma DropBreakBytes(text: seq<int>)
    requires IsText(text)
    ensures IsText(DropBreak(text)) && DropNewline(EncodeAll(text)) == EncodeAll(DropBreak(text))
  {
    if text != [] {
      LastIsBreakIff(text);
      if text[|text| - 1] == 0x0A {
        DropLastBytes(text);
      }
    }
  }

  /** With the flag right, what Enter or the end of input returns is the UTF-8 of the submitted text: it never
      cuts a code point in two. */
  lemma SubmitReturnsText(text: seq<int>, special: bool, eof: bool, multiline: bool)
    requires IsText(text) && (special ==> EndsSpecial(text))
    ensures special ==> EncodeAll(text) != []
    ensures IsText(ReturnedText(text, special, eof))
    ensures Returned(EncodeAll(text), special, eof, multiline).0 == EncodeAll(ReturnedText(text, special, eof))
  {
    TakenBytes(text, special, eof, multiline);
    DropBreakBytes(TakenText(text, special, eof));
  }

  // ----- one line after the other

  function StoredText(history: seq<seq<int>>, text: seq<int>): seq<seq<int>> {
    if history == [] || history[|history| - 1] != text then history + [text] else history
  }

  /** What the next call of the reader starts from. A line that is empty, or ends with the input, is not
      stored, and then the place in the history is not left either. */
  function NextPad(p: Pad, eof: bool): Pad {
    var out := ReturnedText(p.text, p.special, eof);
    if eof || out == [] then Pad([], 0, p.history, p.viewing, p.backup, false)
    else Pad([], 0, StoredText(p.history, out), NotViewing, [], false)
  }

  lemma SameLastIff(entries: seq<seq<Byte>>, history: seq<seq<int>>, out: seq<int>)
    requires |entries| == |history| > 0 && IsText(history[|history| - 1]) && IsText(out)
    requires entries[|entries| - 1] == EncodeAll(history[|history| - 1])
    ensures entries[|entries| - 1] == EncodeAll(out) <==> history[|history| - 1] == out
  {
    if entries[|entries| - 1] == EncodeAll(out) {
      EncodeInjective(history[|history| - 1], out);
    }
  }

  /** Every line is the UTF-8 of its text. */
  ghost predicate Encodes(outs: seq<seq<Byte>>, texts: seq<seq<int>>) {
    |outs| == |texts| && forall i :: 0 <= i < |outs| ==> IsText(texts[i]) && outs[i] == EncodeAll(texts[i])
  }

  lemma EncodesSnoc(outs: seq<seq<Byte>>, texts: seq<seq<int>>, out: seq<Byte>, text: seq<int>)
    requires IsText(text) && out == EncodeAll(text) && Encodes(outs, texts)
    ensures Encodes(outs + [out], texts + [text])
  {
  }

  lemma FreshInStep(entries: seq<seq<Byte>>, history: seq<seq<int>>)
    requires Encodes(entries, history)
    ensures HistoryInStep(entries, NotViewing, [], Pad([], 0, history, NotViewing, [], false))
  {
  }

  lemma StoredEncodes(entries: seq<seq<Byte>>, history: seq<seq<int>>, out: seq<int>)
    requires Encodes(entries, history) && IsText(out)
    ensures Encodes(Stored(entries, EncodeAll(out)), StoredText(history, out))
  {
    EncodesSnoc(entries, history, EncodeAll(out), out);
    if entries != [] {
      SameLastIff(entries, history, out);
    }
  }

  lemma StoredInStep(entries: seq<seq<Byte>>, viewing: Viewing, backup: seq<Byte>, p: Pad, out: seq<int>)
    requires HistoryInStep(entries, viewing, backup, p) && IsText(out)
    ensures HistoryInStep(Stored(entries, EncodeAll(out)), NotViewing, [],
                          Pad([], 0, StoredText(p.history, out), NotViewing, [], false))
  {
    StoredEncodes(entries, p.history, out);
    FreshInStep(Stored(entries, EncodeAll(out)), StoredText(p.history, out));
  }

  lemma EmptyIffEmpty(text: seq<int>)
    requires IsText(text)
    ensures EncodeAll(text) == [] <==> text == []
  {
    if text != [] {
      DecodeHead(text);
    }
  }

  /** Enter or the end of input, with the flag right: the line returned is text, and the history is that of
      the code-point editor again. */
  method Enter(b: Buffer, special: bool, eof: bool, multiline: bool, h: History, ghost p: Pad)
    returns (out: seq<Byte>, hasMore: bool)
    requires InStep(b, p.text, p.pos) && h.Matches(p) && special == p.special && SpecialOk(p)
    modifies h
    ensures IsText(ReturnedText(p.text, p.special, eof)) && out == EncodeAll(ReturnedText(p.text, p.special, eof))
    ensures h.Matches(NextPad(p, eof)) && PadOk(NextPad(p, eof))
  {
    SubmitReturnsText(p.text, special, eof, multiline);
    EmptyIffEmpty(ReturnedText(p.text, special, eof));
    StoredInStep(h.entries, h.viewing, h.backup, p, ReturnedText(p.text, special, eof));
    out, hasMore := Submit(b.line, special, eof, multiline, h);
  }

  /** The keys of one line, and whether the input ended rather than the line. */
  datatype Input = Input(keys: seq<Key>, eof: bool)

  /** No key looks at the highlight of an empty line, and the flag is right whenever a line is taken. */
  predicate SessionOk(p: Pad, ins: seq<Input>, isSpace: int -> bool)
    requires PadOk(p)
    decreases |ins|
  {
    ins == [] ||
    (&& (forall i :: 0 <= i < |ins[0].keys| ==> IsKey(ins[0].keys[i]))
     && RunDefined(p, ins[0].keys, isSpace)
     && var q := PressAll(p, ins[0].keys, isSpace);
     && PadOk(q) && SpecialOk(q) && PadOk(NextPad(q, ins[0].eof))
     && SessionOk(NextPad(q, ins[0].eof), ins[1..], isSpace))
  }

  /** The texts of the lines, and the pad after them. */
  function Session(p: Pad, ins: seq<Input>, isSpace: int -> bool): (seq<seq<int>>, Pad)
    requires PadOk(p) && SessionOk(p, ins, isSpace)
    decreases |ins|
  {
    if ins == [] then ([], p)
    else
      var q := PressAll(p, ins[0].keys, isSpace);
      var rest := Session(NextPad(q, ins[0].eof), ins[1..], isSpace);
      ([ReturnedText(q.text, q.special, ins[0].eof)] + rest.0, rest.1)
  }

  predicate Blank(p: Pad) {
    p.text == [] && p.pos == 0 && !p.special
  }

  /** One call of the reader. */
  method ReadOne(input: Input, multiline: bool, h: History, isSpace: int -> bool, measure: int -> int, ghost p: Pad)
    returns (out: seq<Byte>, hasMore: bool)
    requires Blank(p) && PadOk(p) && h.Matches(p) && SessionOk(p, [input], isSpace)
    modifies h
    ensures var q := PressAll(p, input.keys, isSpace); var text := ReturnedText(q.text, q.special, input.eof);
            IsText(text) && out == EncodeAll(text) && h.Matches(NextPad(q, input.eof))
  {
    var b, special := PressKeys(Buffer([], [], 0, 0, 0), false, h, input.keys, isSpace, measure, p);
    out, hasMore := Enter(b, special, input.eof, multiline, h, PressAll(p, input.keys, isSpace));
  }

  lemma EncodesCons(out: seq<Byte>, text: seq<int>, outs: seq<seq<Byte>>, texts: seq<seq<int>>)
    requires IsText(text) && out == EncodeAll(text) && Encodes(outs, texts)
    ensures Encodes([out] + outs, [text] + texts)
  {
  }

  /** Any number of calls: every line returned is the UTF-8 of its text, and the history stays in step. */
  method ReadLines(ins: seq<Input>, multiline: bool, h: History, isSpace: int -> bool, measure: int -> int, ghost p: Pad)
    returns (outs: seq<seq<Byte>>)
    requires Blank(p) && PadOk(p) && h.Matches(p) && SessionOk(p, ins, isSpace)
    modifies h
    ensures |outs| == |ins| && Encodes(outs, Session(p, ins, isSpace).0)
    ensures h.Matches(Session(p, ins, isSpace).1)
  {
    outs := [];
    if ins != [] {
      SessionHead(p, ins, isSpace);
      var out, _ := ReadOne(ins[0], multiline, h, isSpace, measure, p);
      ghost var q := PressAll(p, ins[0].keys, isSpace);
      ghost var p' := NextPad(q, ins[0].eof);
      outs := ReadLines(ins[1..], multiline, h, isSpace, measure, p');
      EncodesCons(out, ReturnedText(q.text, q.special, ins[0].eof), outs, Session(p', ins[1..], isSpace).0);
      outs := [out] + outs;
    }
  }

  /** The first call of a session, and the rest. */
  lemma SessionHead(p: Pad, ins: seq<Input>, isSpace: int -> bool)
    requires PadOk(p) && SessionOk(p, ins, isSpace) && ins != []
    ensures SessionOk(p, [ins[0]], isSpace)
    ensures var q := PressAll(p, ins[0].keys, isSpace); var p' := NextPad(q, ins[0].eof);
            && Blank(p') && PadOk(p') && SessionOk(p', ins[1..], isSpace)
            && var rest := Session(p', ins[1..], isSpace);
               Session(p, ins, isSpace) == ([ReturnedText(q.text, q.special, ins[0].eof)] + rest.0, rest.1)
  {
    assert [ins[0]][1..] == [];
  }

  lemma {:induction false} PressAllOk(p: Pad, ks: seq<Key>, isSpace: int -> bool)
    requires PadOk(p) && forall i :: 0 <= i < |ks| ==> IsKey(ks[i])
    ensures PadOk(PressAll(p, ks, isSpace))
    decreases |ks|
  {
    if ks != [] {
      EditKeepsOk(p, ks[0], isSpace);
      PressAllOk(Press(p, ks[0], isSpace), ks[1..], isSpace);
    }
  }

  lemma NextPadOk(p: Pad, eof: bool)
    requires PadOk(p) && SpecialOk(p)
    ensures PadOk(NextPad(p, eof)) && SpecialOk(NextPad(p, eof))
  {
    SubmitReturnsText(p.text, p.special, eof, false);
  }

  /** Without completion nothing can go wrong, over any number of lines. */
  lemma {:induction false} SessionsWithoutCompletion(p: Pad, ins: seq<Input>, isSpace: int -> bool)
    requires PadOk(p) && SpecialOk(p)
    requires forall i, j :: 0 <= i < |ins| && 0 <= j < |ins[i].keys| ==> IsKey(ins[i].keys[j]) && !ins[i].keys[j].Complete?
    ensures SessionOk(p, ins, isSpace)
    decreases |ins|
  {
    if ins != [] {
      SpecialInRuns(p, ins[0].keys, isSpace);
      PressAllOk(p, ins[0].keys, isSpace);
      var q := PressAll(p, ins[0].keys, isSpace);
      NextPadOk(q, ins[0].eof);
      SessionsWithoutCompletion(NextPad(q, ins[0].eof), ins[1..], isSpace);
    }
  }

  // ----- the stale flag

  /** A slash followed by completion: the flag is stale, and Enter cuts the completed line. */
  lemma CompletionThenEnterCuts(isSpace: int -> bool, multiline: bool)
    ensures var p := Pad([], 0, [], NotViewing, [], false);
            var ks := [Insert(0x2F, 1), Complete([0x2F, 0x71], -1, false)];
            && RunDefined(p, ks, isSpace)
            && var q := PressAll(p, ks, isSpace);
            && q.text == [0x2F, 0x71] && q.special
            && Returned([0x2F, 0x71], true, false, multiline).0 == [0x2F]
  {
    var p := Pad([], 0, [], NotViewing, [], false);
    var k1, k2 := Insert(0x2F, 1), Complete([0x2F, 0x71], -1, false);
    var ks := [k1, k2];
    var p1 := Press(p, k1, isSpace);
    assert p1.text == [0x2F] && p1.special;
    var p2 := Press(p1, k2, isSpace);
    assert p2.text == [0x2F, 0x71] && p2.special;
    assert ks[1..] == [k2] && [k2][1..] == [];
    var line: seq<Byte> := [0x2F, 0x71];
    assert line[..1] == [0x2F];
    assert RunDefined(p2, [], isSpace) && PressAll(p2, [], isSpace) == p2;
    assert RunDefined(p1, [k2], isSpace) && PressAll(p1, [k2], isSpace) == p2;
  }

  lemma LeadLength(a: nat, b: nat)
    requires IsCodePoint(a) && IsCodePoint(b) && Encode(a)[0] == Encode(b)[0]
    ensures |Encode(a)| == |Encode(b)|
  {
  }

  /** Nothing encodes to a text followed by half a code point. */
  lemma {:induction false} HalfCodePoint(p: seq<int>, c: nat, n: nat, t: seq<int>)
    requires IsText(p) && IsText(t) && IsCodePoint(c) && 0 < n < |Encode(c)|
    ensures EncodeAll(t) != EncodeAll(p) + Encode(c)[..n]
    decreases |p|
  {
    var half := Encode(c)[..n];
    if EncodeAll(t) == EncodeAll(p) + half && t != [] {
      EncodeHead(t);
      if p == [] {
        HalfAlone(c, n, t);
      } else {
        FirstAgrees(p, half, t);
        HalfCodePoint(p[1..], c, n, t[1..]);
      }
    }
  }

  lemma HalfAlone(c: nat, n: nat, t: seq<int>)
    requires IsText(t) && t != [] && IsCodePoint(c) && 0 < n < |Encode(c)|
    ensures EncodeAll(t) != [] + Encode(c)[..n]
  {
    var e := Encode(t[0]);
    EncodeHead(t);
    assert EncodeAll(t)[0] == e[0];
    if EncodeAll(t) == Encode(c)[..n] {
      LeadLength(t[0], c);
    }
  }

  lemma FirstAgrees(p: seq<int>, rest: seq<Byte>, t: seq<int>)
    requires IsText(p) && IsText(t) && p != [] && t != [] && EncodeAll(t) == EncodeAll(p) + rest
    ensures t[0] == p[0] && EncodeAll(t[1..]) == EncodeAll(p[1..]) + rest
  {
    EncodeHead(p);
    EncodeHead(t);
    Assoc(Encode(p[0]), EncodeAll(p[1..]), rest);
    DecodeHead(t);
    DecodeEncode([], p[0], EncodeAll(p[1..]) + rest);
    NilConcat(Encode(p[0]), EncodeAll(p[1..]) + rest);
    SameHead(Encode(t[0]), EncodeAll(t[1..]), Encode(p[0]), EncodeAll(p[1..]) + rest);
  }

  /** What a stale flag leaves of a line is text exactly when its last character takes one byte. */
  lemma CutLineIsTextIff(text: seq<int>)
    requires IsText(text) && text != []
    ensures EncodeAll(text) != []
    ensures var line := EncodeAll(text);
            (exists t: seq<int> :: IsText(t) && EncodeAll(t) == line[..|line| - 1]) <==> text[|text| - 1] < 0x80
  {
    DecodeHead(text);
    var line, k := EncodeAll(text), |text| - 1;
    if text[k] < 0x80 {
      DropLastBytes(text);
      assert IsText(text[..k]);
    } else {
      var e := Encode(text[k]);
      EncodeAt(text, k);
      assert text[..k + 1] == text;
      assert line[..|line| - 1] == EncodeAll(text[..k]) + e[..|e| - 1];
      forall t: seq<int> | IsText(t)
        ensures EncodeAll(t) != line[..|line| - 1]
      {
        HalfCodePoint(text[..k], text[k], |e| - 1, t);
      }
    }
  }

  /** What such a line does to the next call: the completed line is the euro sign, Enter stores two of its
      three bytes, and when they are loaded again they are two units. One step to the left then takes the
      character cursor over one of them and the byte cursor over both. */
  lemma CutLineComesBackOutOfStep(b: Buffer, multiline: bool, measure: int -> int)
    requires Loaded(b, [0xE2, 0x82], -1, measure)
    ensures EncodeAll([0x20AC]) == [0xE2, 0x82, 0xAC]
    ensures Returned([0xE2, 0x82, 0xAC], true, false, multiline).0 == [0xE2, 0x82]
    ensures |b.widths| == 2 && b.charPos == 2 && b.bytePos == 2
    ensures Unit(After(b.line), 2, 1) == 1 && PrevPos(b.line, b.bytePos) == 0
  {
    EncodeOne(0x20AC);
    var line: seq<Byte> := [0xE2, 0x82];
    var whole: seq<Byte> := [0xE2, 0x82, 0xAC];
    assert whole[..2] == line;
    TwoUnits(line);
    AfterSteps(line);
    UnitCount(After(line), 2, 2, |b.widths|);
  }

  lemma TwoUnits(line: seq<Byte>)
    requires line == [0xE2, 0x82]
    ensures Unit(After(line), 2, 0) == 0 && Unit(After(line), 2, 1) == 1 && Unit(After(line), 2, 2) == 2
    ensures PrevPos(line, 2) == 0
  {
    assert After(line)(0) == 1 && After(line)(1) == 2;
    assert IsContinuation(line[1]) && BackContinuation(line, 1) == BackContinuation(line, 0) == 0;
  }

  // ----- the code points that do not fit

  /** Inserting keeps one width per character exactly for real code points: beyond the last one nothing is
      written but a width is. */
  lemma InsertKeepsStepIff(text: seq<int>, pos: nat, c: nat, widths: seq<nat>, w: nat)
    requires IsText(text) && pos <= |text| && |widths| == |text|
    ensures Offset(text, pos) <= |EncodeAll(text)|
    ensures var line, o := EncodeAll(text), Offset(text, pos);
            (exists text' :: Holds(Buffer(line[..o] + Encode(c) + line[o..], widths[..pos] + [w] + widths[pos..], 0, 0, 0), text'))
            <==> IsCodePoint(c)
  {
    OffsetBound(text, pos);
    var line, o := EncodeAll(text), Offset(text, pos);
    var b := Buffer(line[..o] + Encode(c) + line[o..], widths[..pos] + [w] + widths[pos..], 0, 0, 0);
    if IsCodePoint(c) {
      InsertBytes(text, pos, c);
      assert Holds(b, text[..pos] + [c] + text[pos..]);
    } else {
      assert b.line == line;
      forall text' | Holds(b, text') ensures false {
        EncodeInjective(text', text);
      }
    }
  }
}
