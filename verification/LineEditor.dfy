/** The terminal line editor (common/console.cpp). It keeps a UTF-8 line, one width per character, and a
    character and a byte cursor; every key must keep them in step. */
module LineEditor {
  import opened Bytes
  import opened Utf8

  // ----- the editor as a user sees it: code points and one cursor

  datatype Viewing = NotViewing | At(index: nat)

  datatype Pad = Pad(text: seq<int>, pos: nat, history: seq<seq<int>>, viewing: Viewing, backup: seq<int>,
                     special: bool)

  /** A decoded key. `Insert` carries what the terminal answered when asked for the width; `Complete` carries
      the first candidate for the line, where to put the cursor (negative: at the end), and whether there
      were other candidates. */
  datatype Key =
    | Insert(c: nat, answer: int)
    | Backspace
    | Delete
    | Left
    | Right
    | WordLeft
    | WordRight
    | Home
    | End
    | Up
    | Down
    | Complete(candidate: seq<int>, cursor: int, others: bool)

  predicate IsKey(k: Key) {
    && (k.Insert? ==> IsCodePoint(k.c))
    && (k.Complete? ==> IsText(k.candidate))
  }

  function SkipLeft(text: seq<int>, pos: nat, isSpace: int -> bool, space: bool): (r: nat)
    requires pos <= |text|
    ensures r <= pos
  {
    if pos > 0 && isSpace(text[pos - 1]) == space then SkipLeft(text, pos - 1, isSpace, space) else pos
  }

  function SkipRight(text: seq<int>, pos: nat, isSpace: int -> bool, space: bool): (r: nat)
    requires pos <= |text|
    ensures pos <= r <= |text|
    decreases |text| - pos
  {
    if pos < |text| && isSpace(text[pos]) == space then SkipRight(text, pos + 1, isSpace, space) else pos
  }

  /** How many characters end at or before a byte position. */
  function CharsUpTo(text: seq<int>, cursor: int, k: nat): (r: nat)
    requires IsText(text) && k <= |text|
    ensures k <= r <= |text|
    decreases |text| - k
  {
    if k < |text| && (cursor < 0 || Offset(text, k + 1) <= cursor) then CharsUpTo(text, cursor, k + 1) else k
  }

  function Show(p: Pad, text: seq<int>, pos: nat): Pad {
    p.(text := text, pos := pos)
  }

  predicate PadOk(p: Pad) {
    && IsText(p.text) && p.pos <= |p.text| && IsText(p.backup)
    && (forall i :: 0 <= i < |p.history| ==> IsText(p.history[i]))
    && (p.viewing.At? ==> p.viewing.index <= |p.history|)
  }

  function HistoryUp(p: Pad): Pad
    requires PadOk(p)
  {
    var p1 := if p.viewing.At? then p else p.(backup := p.text, viewing := At(|p.history|));
    if p.history == [] then p1
    else
      var i := if p1.viewing.index > 0 then p1.viewing.index - 1 else 0;
      p1.(viewing := At(i), text := p.history[i], pos := |p.history[i]|)
  }

  function HistoryDown(p: Pad): Pad
    requires PadOk(p)
  {
    if p.viewing.NotViewing? || p.history == [] then p
    else
      var i := p.viewing.index + 1;
      if i >= |p.history| then p.(text := p.backup, pos := |p.backup|, viewing := NotViewing, backup := [])
      else p.(viewing := At(i), text := p.history[i], pos := |p.history[i]|)
  }

  function Edit(p: Pad, k: Key, isSpace: int -> bool): Pad
    requires PadOk(p) && IsKey(k)
  {
    match k
    case Insert(c, _) => Show(p, p.text[..p.pos] + [c] + p.text[p.pos..], p.pos + 1)
    case Backspace => if p.pos > 0 then Show(p, p.text[..p.pos - 1] + p.text[p.pos..], p.pos - 1) else p
    case Delete => if p.pos < |p.text| then Show(p, p.text[..p.pos] + p.text[p.pos + 1..], p.pos) else p
    case Left => if p.pos > 0 then Show(p, p.text, p.pos - 1) else p
    case Right => if p.pos < |p.text| then Show(p, p.text, p.pos + 1) else p
    case WordLeft => Show(p, p.text, SkipLeft(p.text, SkipLeft(p.text, p.pos, isSpace, true), isSpace, false))
    case WordRight =>
      var a := SkipRight(p.text, p.pos, isSpace, true);
      var b := SkipRight(p.text, a, isSpace, false);
      Show(p, p.text, SkipRight(p.text, b, isSpace, true))
    case Home => Show(p, p.text, 0)
    case End => Show(p, p.text, |p.text|)
    case Up => HistoryUp(p)
    case Down => HistoryDown(p)
    case Complete(candidate, cursor, others) =>
      if others || candidate != p.text then Show(p, candidate, CharsUpTo(candidate, cursor, 0)) else p
  }

  /** The line ends in a backslash or a slash, which the terminal highlights. */
  predicate EndsSpecial(text: seq<int>) {
    text != [] && (text[|text| - 1] == 0x5C || text[|text| - 1] == 0x2F)
  }

  /** One key. Completion leaves the highlight flag as it was. */
  function Press(p: Pad, k: Key, isSpace: int -> bool): Pad
    requires PadOk(p) && IsKey(k)
  {
    var p1 := Edit(p, k, isSpace);
    if k.Complete? then p1 else p1.(special := EndsSpecial(p1.text))
  }

  lemma EditKeepsOk(p: Pad, k: Key, isSpace: int -> bool)
    requires PadOk(p) && IsKey(k)
    ensures PadOk(Edit(p, k, isSpace))
  {
    match k
    case Insert(c, _) =>
    case Backspace =>
    case Delete =>
    case Left =>
    case Right =>
    case WordLeft =>
    case WordRight =>
    case Home =>
    case End =>
    case Up =>
    case Down =>
    case Complete(_, _, _) =>
  }

  function PressAll(p: Pad, ks: seq<Key>, isSpace: int -> bool): Pad
    requires PadOk(p) && forall i :: 0 <= i < |ks| ==> IsKey(ks[i])
    decreases |ks|
  {
    EditKeepsOk(p, if ks == [] then Home else ks[0], isSpace);
    if ks == [] then p else PressAll(Press(p, ks[0], isSpace), ks[1..], isSpace)
  }

  // ----- bytes under an edit

  lemma InsertedBytes(text: seq<int>, k: nat, c: nat)
    requires IsText(text) && k <= |text| && IsCodePoint(c)
    ensures IsText(text[..k] + [c] + text[k..])
    ensures EncodeAll(text[..k] + [c] + text[k..]) == EncodeAll(text[..k]) + Encode(c) + EncodeAll(text[k..])
    ensures EncodeAll(text[..k] + [c]) == EncodeAll(text[..k]) + Encode(c)
  {
    EncodeOne(c);
    EncodeConcat(text[..k], [c]);
    EncodeConcat(text[..k] + [c], text[k..]);
  }

  lemma InsertBytes(text: seq<int>, k: nat, c: nat)
    requires IsText(text) && k <= |text| && IsCodePoint(c)
    ensures var text' := text[..k] + [c] + text[k..];
            var line, o := EncodeAll(text), Offset(text, k);
            && IsText(text') && o <= |line|
            && EncodeAll(text') == line[..o] + Encode(c) + line[o..]
            && Offset(text', k) == o && Offset(text', k + 1) == o + |Encode(c)|
  {
    var text' := text[..k] + [c] + text[k..];
    EncodeSplit(text, k);
    InsertedBytes(text, k, c);
    assert text'[..k] == text[..k] && text'[..k + 1] == text[..k] + [c];
  }

  lemma RemoveBytes(text: seq<int>, k: nat)
    requires IsText(text) && k < |text|
    ensures var text' := text[..k] + text[k + 1..];
            var line, o, o' := EncodeAll(text), Offset(text, k), Offset(text, k + 1);
            && IsText(text') && o <= o' <= |line|
            && EncodeAll(text') == line[..o] + line[o'..]
            && Offset(text', k) == o
  {
    var text' := text[..k] + text[k + 1..];
    EncodeSplit(text, k);
    EncodeSplit(text, k + 1);
    EncodeAt(text, k);
    EncodeConcat(text[..k], text[k + 1..]);
    assert text'[..k] == text[..k];
  }

  lemma LastByteIs(text: seq<int>, e: seq<Byte>)
    requires IsText(text) && text != [] && e == Encode(text[|text| - 1])
    ensures EncodeAll(text) != [] && e != [] && EncodeAll(text)[|EncodeAll(text)| - 1] == e[|e| - 1]
  {
    var k := |text| - 1;
    EncodeAt(text, k);
    assert text[..k + 1] == text;
  }

  /** The last byte tells whether the last code point is a slash or a backslash. */
  lemma LastByte(text: seq<int>)
    requires IsText(text)
    ensures text != [] <==> EncodeAll(text) != []
    ensures text != [] ==>
              var line := EncodeAll(text);
              (line[|line| - 1] == 0x5C || line[|line| - 1] == 0x2F) <==> EndsSpecial(text)
  {
    if text != [] {
      var e := Encode(text[|text| - 1]);
      LastByteIs(text, e);
      assert |e| > 1 ==> IsContinuation(e[|e| - 1]);
    }
  }

  // ----- widths

  function Sum(ws: seq<nat>): nat {
    if ws == [] then 0 else Sum(ws[..|ws| - 1]) + ws[|ws| - 1]
  }

  lemma {:induction false} SumConcat(a: seq<nat>, b: seq<nat>)
    ensures Sum(a + b) == Sum(a) + Sum(b)
    decreases |b|
  {
    if b == [] {
      assert a + b == a;
    } else {
      assert (a + b)[..|a + b| - 1] == a + b[..|b| - 1];
      SumConcat(a, b[..|b| - 1]);
    }
  }

  lemma SumSnoc(ws: seq<nat>, i: nat)
    requires i < |ws|
    ensures Sum(ws[..i + 1]) == Sum(ws[..i]) + ws[i]
  {
    assert ws[..i + 1][..i] == ws[..i];
  }

  lemma SumSplit(ws: seq<nat>, i: nat, j: nat)
    requires i <= j <= |ws|
    ensures Sum(ws[..j]) == Sum(ws[..i]) + Sum(ws[i..j])
  {
    assert ws[..j] == ws[..i] + ws[i..j];
    SumConcat(ws[..i], ws[i..j]);
  }

  /** What the editing functions pass around by reference: the line, the widths and the two cursors. The
      column counts what was printed minus what was moved back since the line began. */
  datatype Buffer = Buffer(line: seq<Byte>, widths: seq<nat>, charPos: nat, bytePos: nat, column: int)

  /** Line and widths describe the text. */
  ghost predicate Holds(b: Buffer, text: seq<int>) {
    IsText(text) && b.line == EncodeAll(text) && |b.widths| == |text|
  }

  /** Both cursors stand at the same character, and so does the terminal's. */
  ghost predicate InStep(b: Buffer, text: seq<int>, pos: nat) {
    && Holds(b, text) && pos <= |text|
    && b.charPos == pos && b.bytePos == Offset(text, pos)
    && b.column == Sum(b.widths[..pos])
  }

  // ----- what each change does to the representation

  lemma SumAfterInsert(ws: seq<nat>, c: nat, w: nat)
    requires c <= |ws|
    ensures Sum((ws[..c] + [w] + ws[c..])[..c + 1]) == Sum(ws[..c]) + w
  {
    var ws' := ws[..c] + [w] + ws[c..];
    assert ws'[..c] == ws[..c];
    SumSnoc(ws', c);
  }

  lemma InsertInStep(b: Buffer, text: seq<int>, pos: nat, cp: nat, w: nat)
    requires InStep(b, text, pos) && IsCodePoint(cp)
    ensures b.bytePos <= |b.line|
    ensures InStep(Buffer(b.line[..b.bytePos] + Encode(cp) + b.line[b.bytePos..],
                          b.widths[..pos] + [w] + b.widths[pos..],
                          pos + 1, b.bytePos + |Encode(cp)|, b.column + w),
                   text[..pos] + [cp] + text[pos..], pos + 1)
  {
    InsertBytes(text, pos, cp);
    SumAfterInsert(b.widths, pos, w);
  }

  /** Removing the character at index `c` and leaving the cursor there. */
  lemma RemoveInStep(b: Buffer, text: seq<int>, c: nat)
    requires Holds(b, text) && c < |text|
    ensures Offset(text, c) < Offset(text, c + 1) <= |b.line|
    ensures InStep(Buffer(b.line[..Offset(text, c)] + b.line[Offset(text, c + 1)..],
                          b.widths[..c] + b.widths[c + 1..], c, Offset(text, c), Sum(b.widths[..c])),
                   text[..c] + text[c + 1..], c)
  {
    OffsetShape(text, c);
    RemoveBytes(text, c);
    assert (b.widths[..c] + b.widths[c + 1..])[..c] == b.widths[..c];
  }

  lemma NextOffset(text: seq<int>, k: nat)
    requires IsText(text) && k < |text|
    ensures NextPos(EncodeAll(text), Offset(text, k)) == Offset(text, k + 1)
    ensures Offset(text, k) < Offset(text, k + 1) <= |EncodeAll(text)|
  {
    NextIsNextOffset(text, k);
    OffsetShape(text, k);
  }

  lemma OffsetBound(text: seq<int>, k: nat)
    requires IsText(text) && k <= |text|
    ensures Offset(text, k) <= |EncodeAll(text)|
  {
    EncodeSplit(text, k);
  }

  lemma SliceGrows(s: seq<Byte>, a: nat, p: nat, q: nat)
    requires a <= p <= q <= |s|
    ensures s[a..p] + s[p..q] == s[a..q]
  {
  }

  lemma SumRange(ws: seq<nat>, from: nat, i: nat)
    requires from <= i < |ws|
    ensures Sum(ws[from..i + 1]) == Sum(ws[from..i]) + ws[i]
  {
    assert ws[from..i + 1][..i - from] == ws[from..i];
  }

  // ----- the editing functions

  function MoveCursor(b: Buffer, delta: int): Buffer {
    b.(column := b.column + delta)
  }

  /** Prints the characters from index `from` on; returns their width and what was written. */
  method RedrawTail(b: Buffer, from: nat, start: nat, ghost text: seq<int>) returns (tail: nat, printed: seq<Byte>)
    requires Holds(b, text) && from <= |text| && start == Offset(text, from)
    ensures tail == Sum(b.widths[from..])
    ensures start <= |b.line| && printed == b.line[start..]
  {
    var p := start;
    tail, printed := 0, [];
    OffsetBound(text, from);
    for i := from to |b.widths|
      invariant p == Offset(text, i) && start <= p <= |b.line|
      invariant tail == Sum(b.widths[from..i])
      invariant printed == b.line[start..p]
    {
      NextOffset(text, i);
      SumRange(b.widths, from, i);
      var following := NextUtf8CharPos(b.line, p);
      SliceGrows(b.line, start, p, following);
      printed := printed + b.line[p..following];
      tail := tail + b.widths[i];
      p := following;
    }
    OffsetEnds(text);
    assert b.widths[from..|b.widths|] == b.widths[from..];
  }

  method DeleteAtCursor(b: Buffer, ghost text: seq<int>) returns (r: Buffer)
    requires InStep(b, text, b.charPos)
    ensures if b.charPos < |text| then InStep(r, text[..b.charPos] + text[b.charPos + 1..], b.charPos) else r == b
  {
    r := b;
    if b.charPos >= |b.widths| {
      return;
    }
    NextIsNextOffset(text, b.charPos);
    RemoveInStep(b, text, b.charPos);
    var next := NextUtf8CharPos(b.line, b.bytePos);
    var w: int := b.widths[b.charPos];
    r := r.(line := b.line[..b.bytePos] + b.line[next..],
            widths := b.widths[..b.charPos] + b.widths[b.charPos + 1..]);
    var tail, _ := RedrawTail(r, r.charPos, r.bytePos, text[..b.charPos] + text[b.charPos + 1..]);
    r := r.(column := r.column + tail + w);
    r := MoveCursor(r, -(tail + w));
  }

  method EraseBefore(b: Buffer, ghost text: seq<int>) returns (r: Buffer)
    requires InStep(b, text, b.charPos)
    ensures if b.charPos > 0 then InStep(r, text[..b.charPos - 1] + text[b.charPos..], b.charPos - 1) else r == b
  {
    r := b;
    if b.charPos > 0 {
      PrevIsPrevOffset(text, b.charPos);
      RemoveInStep(b, text, b.charPos - 1);
      SumSnoc(b.widths, b.charPos - 1);
      var w: int := b.widths[b.charPos - 1];
      r := MoveCursor(r, -w);
      var prev := PrevUtf8CharPos(b.line, b.bytePos);
      r := r.(charPos := b.charPos - 1, bytePos := prev, line := b.line[..prev] + b.line[b.bytePos..],
              widths := b.widths[..b.charPos - 1] + b.widths[b.charPos..]);
      var tail, _ := RedrawTail(r, r.charPos, r.bytePos, text[..b.charPos - 1] + text[b.charPos..]);
      r := r.(column := r.column + tail + w);
      r := MoveCursor(r, -(tail + w));
    }
  }

  method InsertChar(b: Buffer, c: nat, answer: int, ghost text: seq<int>) returns (r: Buffer)
    requires InStep(b, text, b.charPos) && IsCodePoint(c)
    ensures InStep(r, text[..b.charPos] + [c] + text[b.charPos..], b.charPos + 1)
  {
    var w := if answer < 0 then 0 else answer;
    if b.charPos == |b.widths| {
      r := InsertAtEnd(b, c, w, text);
    } else {
      r := InsertInMiddle(b, c, w, text);
    }
  }

  lemma AtEnd<T>(s: seq<T>, n: nat, x: seq<T>)
    requires n == |s|
    ensures s[..n] + x + s[n..] == s + x
  {
  }

  lemma AppendInStep(b: Buffer, text: seq<int>, c: nat, w: nat)
    requires InStep(b, text, b.charPos) && IsCodePoint(c) && b.charPos == |b.widths|
    ensures InStep(Buffer(b.line + Encode(c), b.widths + [w], b.charPos + 1, b.bytePos + |Encode(c)|, b.column + w),
                   text[..b.charPos] + [c] + text[b.charPos..], b.charPos + 1)
  {
    InsertInStep(b, text, b.charPos, c, w);
    OffsetEnds(text);
    AtEnd(b.line, b.bytePos, Encode(c));
    AtEnd(b.widths, b.charPos, [w]);
  }

  method InsertAtEnd(b: Buffer, c: nat, w: nat, ghost text: seq<int>) returns (r: Buffer)
    requires InStep(b, text, b.charPos) && IsCodePoint(c) && b.charPos == |b.widths|
    ensures InStep(r, text[..b.charPos] + [c] + text[b.charPos..], b.charPos + 1)
  {
    var bytes := Encode(c);
    AppendInStep(b, text, c, w);
    r := Buffer(b.line + bytes, b.widths + [w], b.charPos + 1, b.bytePos + |bytes|, b.column + w);
  }

  method InsertInMiddle(b: Buffer, c: nat, w: nat, ghost text: seq<int>) returns (r: Buffer)
    requires InStep(b, text, b.charPos) && IsCodePoint(c)
    ensures InStep(r, text[..b.charPos] + [c] + text[b.charPos..], b.charPos + 1)
  {
    var bytes := Encode(c);
    InsertInStep(b, text, b.charPos, c, w);
    var line := b.line[..b.bytePos] + bytes + b.line[b.bytePos..];
    var widths := b.widths[..b.charPos] + [w] + b.widths[b.charPos..];
    var column := b.column + w;
    var bytePos := b.bytePos + |bytes|;
    ghost var text' := text[..b.charPos] + [c] + text[b.charPos..];
    r := Buffer(line, widths, b.charPos + 1, bytePos, column);
    assert InStep(r, text', b.charPos + 1);
    var tail, _ := RedrawTail(r, b.charPos + 1, bytePos, text');
    r := MoveCursor(r.(column := column + tail), -(tail as int));
  }

  /** The terminal's cursor stands where the character cursor says. */
  predicate ColumnOk(b: Buffer) {
    b.charPos <= |b.widths| && b.column == Sum(b.widths[..b.charPos])
  }

  method MoveToLineStart(b: Buffer) returns (r: Buffer)
    requires ColumnOk(b)
    ensures r == Buffer(b.line, b.widths, 0, 0, 0)
  {
    var back: int := 0;
    for i := 0 to b.charPos
      invariant back == Sum(b.widths[..i])
    {
      SumSnoc(b.widths, i);
      back := back + b.widths[i];
    }
    r := MoveCursor(b, -back);
    r := r.(charPos := 0, bytePos := 0);
  }

  method MoveToLineEnd(b: Buffer, ghost text: seq<int>) returns (r: Buffer)
    requires InStep(b, text, b.charPos)
    ensures InStep(r, text, |text|) && r.line == b.line && r.widths == b.widths
  {
    var forward := 0;
    for i := b.charPos to |b.widths|
      invariant forward == Sum(b.widths[b.charPos..i])
    {
      SumRange(b.widths, b.charPos, i);
      forward := forward + b.widths[i];
    }
    SumSplit(b.widths, b.charPos, |b.widths|);
    OffsetEnds(text);
    r := MoveCursor(b, forward);
    r := r.(charPos := |b.widths|, bytePos := |b.line|);
  }

  method MoveLeft(b: Buffer, ghost text: seq<int>) returns (r: Buffer)
    requires InStep(b, text, b.charPos)
    ensures InStep(r, text, if b.charPos > 0 then b.charPos - 1 else 0) && r.widths == b.widths
  {
    r := b;
    if b.charPos > 0 {
      PrevIsPrevOffset(text, b.charPos);
      SumSnoc(b.widths, b.charPos - 1);
      var w: int := b.widths[b.charPos - 1];
      var prev := PrevUtf8CharPos(b.line, b.bytePos);
      r := MoveCursor(r, -w);
      r := r.(charPos := b.charPos - 1, bytePos := prev);
    }
  }

  method MoveRight(b: Buffer, ghost text: seq<int>) returns (r: Buffer)
    requires InStep(b, text, b.charPos)
    ensures InStep(r, text, if b.charPos < |text| then b.charPos + 1 else |text|) && r.widths == b.widths
  {
    r := b;
    if b.charPos < |b.widths| {
      NextOffset(text, b.charPos);
      SumSnoc(b.widths, b.charPos);
      var next := NextUtf8CharPos(b.line, b.bytePos);
      r := MoveCursor(r, b.widths[b.charPos]);
      r := r.(charPos := b.charPos + 1, bytePos := next);
    }
  }

  /** One loop of a word move to the left: over spaces, or over anything else. */
  method LeftWhile(b: Buffer, c0: nat, p0: nat, space: bool, isSpace: int -> bool, ghost text: seq<int>)
    returns (c: nat, p: nat, moved: nat)
    requires Holds(b, text) && c0 <= |text| && p0 == Offset(text, c0)
    ensures c == SkipLeft(text, c0, isSpace, space) && p == Offset(text, c)
    ensures moved == Sum(b.widths[c..c0])
  {
    c, p, moved := c0, p0, 0;
    while c > 0
      invariant c <= c0 && p == Offset(text, c) && moved == Sum(b.widths[c..c0])
      invariant SkipLeft(text, c, isSpace, space) == SkipLeft(text, c0, isSpace, space)
    {
      PrevIsPrevOffset(text, c);
      DecodeAt(text, c - 1);
      var prev := PrevUtf8CharPos(b.line, p);
      var (cp, _) := Decode(b.line, prev);
      if isSpace(cp) != space {
        break;
      }
      SumFront(b.widths, c - 1, c0);
      moved := moved + b.widths[c - 1];
      c := c - 1;
      p := prev;
    }
  }

  lemma SumFront(ws: seq<nat>, i: nat, j: nat)
    requires i < j <= |ws|
    ensures Sum(ws[i..j]) == ws[i] + Sum(ws[i + 1..j])
  {
    assert ws[i..j] == [ws[i]] + ws[i + 1..j];
    SumConcat([ws[i]], ws[i + 1..j]);
    assert Sum([ws[i]]) == ws[i] by { assert [ws[i]][..0] == []; }
  }

  lemma NextChar(text: seq<int>, c: nat, p: nat)
    requires IsText(text) && c < |text| && p == Offset(text, c)
    ensures p < |EncodeAll(text)| && Decode(EncodeAll(text), p).0 == text[c]
    ensures p + Decode(EncodeAll(text), p).1 == Offset(text, c + 1)
  {
    EncodeAt(text, c);
    DecodeAt(text, c);
  }

  method RightWhile(b: Buffer, c0: nat, p0: nat, space: bool, isSpace: int -> bool, ghost text: seq<int>)
    returns (c: nat, p: nat, moved: nat)
    requires Holds(b, text) && c0 <= |text| && p0 == Offset(text, c0)
    ensures c == SkipRight(text, c0, isSpace, space) && p == Offset(text, c)
    ensures moved == Sum(b.widths[c0..c])
  {
    c, p, moved := c0, p0, 0;
    while c < |b.widths|
      invariant c0 <= c <= |text| && p == Offset(text, c) && moved == Sum(b.widths[c0..c])
      invariant SkipRight(text, c, isSpace, space) == SkipRight(text, c0, isSpace, space)
    {
      NextChar(text, c, p);
      var (cp, advance) := Decode(b.line, p);
      if isSpace(cp) != space {
        break;
      }
      SumRange(b.widths, c0, c);
      moved := moved + b.widths[c];
      c := c + 1;
      p := p + advance;
    }
  }

  method MoveWordLeft(b: Buffer, isSpace: int -> bool, ghost text: seq<int>) returns (r: Buffer)
    requires InStep(b, text, b.charPos)
    ensures InStep(r, text, SkipLeft(text, SkipLeft(text, b.charPos, isSpace, true), isSpace, false))
  {
    if b.charPos == 0 {
      return b;
    }
    var c1, p1, m1 := LeftWhile(b, b.charPos, b.bytePos, true, isSpace, text);
    var c2, p2, m2 := LeftWhile(b, c1, p1, false, isSpace, text);
    SumSplit(b.widths, c1, b.charPos);
    SumSplit(b.widths, c2, c1);
    r := MoveCursor(b, -((m1 + m2) as int));
    r := r.(charPos := c2, bytePos := p2);
  }

  method MoveWordRight(b: Buffer, isSpace: int -> bool, ghost text: seq<int>) returns (r: Buffer)
    requires InStep(b, text, b.charPos)
    ensures var a := SkipRight(text, b.charPos, isSpace, true);
            InStep(r, text, SkipRight(text, SkipRight(text, a, isSpace, false), isSpace, true))
  {
    if b.charPos >= |b.widths| {
      return b;
    }
    var c1, p1, m1 := RightWhile(b, b.charPos, b.bytePos, true, isSpace, text);
    var c2, p2, m2 := RightWhile(b, c1, p1, false, isSpace, text);
    var c3, p3, m3 := RightWhile(b, c2, p2, true, isSpace, text);
    SumSplit(b.widths, b.charPos, c1);
    SumSplit(b.widths, c1, c2);
    SumSplit(b.widths, c2, c3);
    r := MoveCursor(b, m1 + m2 + m3);
    r := r.(charPos := c3, bytePos := p3);
  }
}
