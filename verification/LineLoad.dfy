/** Replacing the whole line of the editor (common/console.cpp), for any bytes. What is loaded is split into
    the units that the decoder takes one after the other; for UTF-8 text these are its code points. */
module LineLoad {
  import opened Bytes
  import opened Utf8
  import opened LineEditor

  // ----- clearing

  /** The columns that are overwritten: at least one for each character. */
  function Covered(ws: seq<nat>): nat {
    if ws == [] then 0
    else Covered(ws[..|ws| - 1]) + (if ws[|ws| - 1] > 0 then ws[|ws| - 1] else 1)
  }

  lemma {:induction false} CoveredEnough(ws: seq<nat>)
    ensures Sum(ws) <= Covered(ws) && |ws| <= Covered(ws)
    ensures Covered(ws) == Sum(ws) <==> forall i :: 0 <= i < |ws| ==> ws[i] > 0
    decreases |ws|
  {
    if ws != [] {
      CoveredEnough(ws[..|ws| - 1]);
    }
  }

  /** Overwrites the old line with spaces and goes back: the cursor does not move. */
  method ClearCurrentLine(b: Buffer) returns (r: Buffer, spaces: nat)
    ensures r == b && spaces == Covered(b.widths)
  {
    spaces := 0;
    for i := 0 to |b.widths|
      invariant spaces == Covered(b.widths[..i])
    {
      assert b.widths[..i + 1][..i] == b.widths[..i];
      spaces := spaces + (if b.widths[i] > 0 then b.widths[i] else 1);
    }
    assert b.widths[..|b.widths|] == b.widths;
    r := b;
    if spaces > 0 {
      r := r.(column := r.column + spaces);
      r := MoveCursor(r, -(spaces as int));
    }
  }

  // ----- units

  /** From where a unit begins to where the next does. */
  function After(line: seq<Byte>): nat -> nat {
    (o: nat) => if o < |line| then o + Decode(line, o).1 else o
  }

  /** The width recorded for the unit at an offset. */
  function WidthAt(line: seq<Byte>, measure: int -> int): nat -> nat {
    (o: nat) => if o < |line| && measure(Decode(line, o).0) > 0 then measure(Decode(line, o).0) else 0
  }

  ghost predicate Steps(next: nat -> nat, end: nat) {
    forall o: nat :: o < end ==> o < next(o) <= end
  }

  /** Where the `k`-th unit begins. */
  function Unit(next: nat -> nat, end: nat, k: nat): nat {
    if k == 0 then 0
    else
      var o := Unit(next, end, k - 1);
      if o < end then next(o) else o
  }

  lemma {:induction false} UnitMonotone(next: nat -> nat, end: nat, i: nat, j: nat)
    requires Steps(next, end) && i <= j
    ensures Unit(next, end, i) <= Unit(next, end, j)
    decreases j
  {
    if i < j {
      UnitMonotone(next, end, i, j - 1);
    }
  }

  lemma AfterSteps(line: seq<Byte>)
    ensures Steps(After(line), |line|)
  {
  }

  // ----- loading

  /** The cursor stands behind the `c` units that end at or before the wanted byte, of `k` seen so far. */
  predicate CursorAt(next: nat -> nat, end: nat, cursor: int, c: nat, k: nat) {
    && c <= k
    && (c < k ==> 0 <= cursor < Unit(next, end, c + 1))
    && (c > 0 && cursor >= 0 ==> Unit(next, end, c) <= cursor)
  }

  predicate Measured(widths: seq<nat>, next: nat -> nat, end: nat, width: nat -> nat) {
    forall i :: 0 <= i < |widths| ==> widths[i] == width(Unit(next, end, i))
  }

  /** `k` units have been seen, up to `idx`, and the cursors are behind `c` of them. */
  predicate Reached(next: nat -> nat, end: nat, cursor: int, k: nat, c: nat, idx: nat, bytePos: nat) {
    && idx == Unit(next, end, k) && (k > 0 ==> Unit(next, end, k - 1) < end)
    && CursorAt(next, end, cursor, c, k) && bytePos == Unit(next, end, c)
  }

  /** The columns printed, and those to move back. */
  predicate Printed(widths: seq<nat>, c: nat, column: int, back: int) {
    c <= |widths| && column == Sum(widths) && back == Sum(widths[c..])
  }

  /** Loading a line, part way: the units so far have been read and printed, and `back` columns must be
      moved back at the end. */
  ghost predicate Loading(b: Buffer, next: nat -> nat, width: nat -> nat, cursor: int, idx: nat, back: int) {
    && Reached(next, |b.line|, cursor, |b.widths|, b.charPos, idx, b.bytePos)
    && Printed(b.widths, b.charPos, b.column, back)
    && Measured(b.widths, next, |b.line|, width)
  }

  /** One width for each unit, both cursors behind the same unit, and the column with them. */
  ghost predicate LoadedBy(b: Buffer, next: nat -> nat, width: nat -> nat, cursor: int) {
    && Reached(next, |b.line|, cursor, |b.widths|, b.charPos, |b.line|, b.bytePos)
    && ColumnOk(b) && Measured(b.widths, next, |b.line|, width)
  }

  ghost predicate Loaded(b: Buffer, line: seq<Byte>, cursor: int, measure: int -> int) {
    b.line == line && LoadedBy(b, After(line), WidthAt(line, measure), cursor)
  }

  lemma SumPush(ws: seq<nat>, c: nat, w: nat)
    requires c <= |ws|
    ensures Sum(ws + [w]) == Sum(ws) + w
    ensures Sum((ws + [w])[c..]) == Sum(ws[c..]) + w
  {
    SumConcat(ws, [w]);
    SumOne(w);
    assert (ws + [w])[c..] == ws[c..] + [w];
    SumConcat(ws[c..], [w]);
  }

  lemma SumOne(w: nat)
    ensures Sum([w]) == w
  {
    assert [w][..0] == [];
  }

  lemma MeasuredPush(ws: seq<nat>, next: nat -> nat, end: nat, width: nat -> nat, w: nat)
    requires Measured(ws, next, end, width) && w == width(Unit(next, end, |ws|))
    ensures Measured(ws + [w], next, end, width)
  {
  }

  /** A unit behind the wanted cursor position. */
  lemma ReachedBehind(next: nat -> nat, end: nat, cursor: int, k: nat, c: nat, idx: nat, bytePos: nat)
    requires Reached(next, end, cursor, k, c, idx, bytePos) && idx < end && 0 <= cursor < next(idx)
    ensures Reached(next, end, cursor, k + 1, c, next(idx), bytePos)
  {
  }

  /** A unit before it; the cursor follows. */
  lemma ReachedBefore(next: nat -> nat, end: nat, cursor: int, k: nat, c: nat, idx: nat, bytePos: nat)
    requires Reached(next, end, cursor, k, c, idx, bytePos) && idx < end && !(0 <= cursor < next(idx))
    requires Steps(next, end)
    ensures c == k && Reached(next, end, cursor, k + 1, k + 1, next(idx), next(idx))
  {
    if c < k {
      UnitMonotone(next, end, c + 1, k + 1);
    }
  }

  lemma PrintedBehind(ws: seq<nat>, c: nat, column: int, back: int, w: nat)
    requires Printed(ws, c, column, back)
    ensures Printed(ws + [w], c, column + w, back + w)
  {
    SumPush(ws, c, w);
  }

  lemma PrintedBefore(ws: seq<nat>, column: int, back: int, w: nat)
    requires Printed(ws, |ws|, column, back)
    ensures Printed(ws + [w], |ws| + 1, column + w, back)
  {
    SumPush(ws, |ws|, w);
    assert (ws + [w])[|ws| + 1..] == [] && ws[|ws|..] == [];
  }

  lemma PrintedEnds(ws: seq<nat>, c: nat, column: int, back: int)
    requires Printed(ws, c, column, back)
    ensures column - back == Sum(ws[..c]) && (c == |ws| ==> back == 0)
  {
    SumSplit(ws, c, |ws|);
    assert ws[..|ws|] == ws && ws[c..|ws|] == ws[c..];
  }

  /** Decodes and measures one unit. */
  method MeasureUnit(line: seq<Byte>, idx: nat, measure: int -> int) returns (next: nat, w: nat)
    requires idx < |line|
    ensures next == After(line)(idx) && w == WidthAt(line, measure)(idx) && idx < next <= |line|
  {
    var (cp, advance) := Decode(line, idx);
    next := idx + advance;
    w := if measure(cp) < 0 then 0 else measure(cp);
  }

  lemma LoadBehind(b: Buffer, next: nat -> nat, width: nat -> nat, cursor: int, idx: nat, back: int, w: nat)
    requires Loading(b, next, width, cursor, idx, back) && idx < |b.line| && w == width(idx) && 0 <= cursor < next(idx)
    ensures Loading(Buffer(b.line, b.widths + [w], b.charPos, b.bytePos, b.column + w), next, width, cursor,
                    next(idx), back + w)
  {
    MeasuredPush(b.widths, next, |b.line|, width, w);
    ReachedBehind(next, |b.line|, cursor, |b.widths|, b.charPos, idx, b.bytePos);
    PrintedBehind(b.widths, b.charPos, b.column, back, w);
  }

  lemma LoadBefore(b: Buffer, next: nat -> nat, width: nat -> nat, cursor: int, idx: nat, back: int, w: nat)
    requires Loading(b, next, width, cursor, idx, back) && idx < |b.line| && w == width(idx)
    requires !(0 <= cursor < next(idx)) && Steps(next, |b.line|)
    ensures Loading(Buffer(b.line, b.widths + [w], b.charPos + 1, next(idx), b.column + w), next, width, cursor,
                    next(idx), back)
  {
    MeasuredPush(b.widths, next, |b.line|, width, w);
    ReachedBefore(next, |b.line|, cursor, |b.widths|, b.charPos, idx, b.bytePos);
    PrintedBefore(b.widths, b.column, back, w);
  }

  /** One iteration of the loop: prints and counts the unit up to `idx`, `w` columns wide. */
  method LoadUnit(b: Buffer, cursor: int, idx0: nat, idx: nat, w: nat, back0: int,
                  ghost next: nat -> nat, ghost width: nat -> nat) returns (r: Buffer, back: int)
    requires Loading(b, next, width, cursor, idx0, back0) && idx0 < |b.line| && Steps(next, |b.line|)
    requires idx == next(idx0) && w == width(idx0)
    ensures r.line == b.line && Loading(r, next, width, cursor, idx, back)
  {
    r, back := b.(widths := b.widths + [w], column := b.column + w), back0;
    if cursor >= 0 && cursor < idx {
      LoadBehind(b, next, width, cursor, idx0, back0, w);
      back := back + w;
    } else {
      LoadBefore(b, next, width, cursor, idx0, back0, w);
      r := r.(charPos := r.charPos + 1, bytePos := idx);
    }
  }

  method LoadUnits(newLine: seq<Byte>, cursor: int, measure: int -> int) returns (r: Buffer, back: int)
    ensures r.line == newLine
    ensures Loading(r, After(newLine), WidthAt(newLine, measure), cursor, |newLine|, back)
  {
    r := Buffer(newLine, [], 0, 0, 0);
    var idx: nat := 0;
    back := 0;
    AfterSteps(newLine);
    while idx < |r.line|
      invariant idx <= |newLine| && r.line == newLine
      invariant Loading(r, After(newLine), WidthAt(newLine, measure), cursor, idx, back)
      decreases |newLine| - idx
    {
      var next, w := MeasureUnit(newLine, idx, measure);
      r, back := LoadUnit(r, cursor, idx, next, w, back, After(newLine), WidthAt(newLine, measure));
      idx := next;
    }
  }

  /** Loads any bytes into any buffer whose column is right. */
  method SetLineContents(newLine: seq<Byte>, b: Buffer, cursor: int, measure: int -> int) returns (r: Buffer)
    requires ColumnOk(b)
    ensures Loaded(r, newLine, cursor, measure)
  {
    var home := MoveToLineStart(b);
    var cleared, _ := ClearCurrentLine(home);
    assert cleared.column == 0;
    var back;
    r, back := LoadUnits(newLine, cursor, measure);
    PrintedEnds(r.widths, r.charPos, r.column, back);
    if cursor >= 0 {
      r := MoveCursor(r, -back);
    }
  }

  // ----- loading text

  lemma AfterChar(text: seq<int>, k: nat)
    requires IsText(text) && k < |text|
    ensures Offset(text, k) < |EncodeAll(text)| && After(EncodeAll(text))(Offset(text, k)) == Offset(text, k + 1)
  {
    NextChar(text, k, Offset(text, k));
  }

  lemma UnitNext(next: nat -> nat, end: nat, k: nat, o: nat)
    requires Unit(next, end, k) == o < end
    ensures Unit(next, end, k + 1) == next(o)
  {
  }

  lemma FirstOffset(text: seq<int>)
    requires IsText(text)
    ensures Offset(text, 0) == 0
  {
    assert text[..0] == [];
  }

  lemma {:induction false} UnitsAre(offs: seq<nat>, next: nat -> nat, end: nat, k: nat)
    requires k < |offs| && offs[0] == 0 && forall i :: 0 <= i < |offs| - 1 ==> offs[i] < end && next(offs[i]) == offs[i + 1]
    ensures Unit(next, end, k) == offs[k]
    decreases k
  {
    if k > 0 {
      UnitsAre(offs, next, end, k - 1);
      assert next(offs[k - 1]) == offs[k - 1 + 1];
      UnitNext(next, end, k - 1, offs[k - 1]);
    }
  }

  function Offsets(text: seq<int>): (offs: seq<nat>)
    requires IsText(text)
    ensures |offs| == |text| + 1
  {
    seq(|text| + 1, i requires 0 <= i <= |text| => Offset(text, i))
  }

  lemma OffsetsStep(text: seq<int>, i: nat)
    requires IsText(text) && i < |text|
    ensures var offs := Offsets(text);
            offs[i] < |EncodeAll(text)| && After(EncodeAll(text))(offs[i]) == offs[i + 1]
  {
    AfterChar(text, i);
  }

  /** The units of a text are its code points. */
  lemma UnitsOfText(text: seq<int>, k: nat)
    requires IsText(text) && k <= |text|
    ensures Unit(After(EncodeAll(text)), |EncodeAll(text)|, k) == Offset(text, k)
  {
    var offs, next, end := Offsets(text), After(EncodeAll(text)), |EncodeAll(text)|;
    FirstOffset(text);
    forall i | 0 <= i < |offs| - 1
      ensures offs[i] < end && next(offs[i]) == offs[i + 1]
    {
      OffsetsStep(text, i);
    }
    UnitsAre(offs, next, end, k);
  }

  lemma CharsUpToStep(text: seq<int>, cursor: int, k: nat)
    requires IsText(text) && k < |text| && (cursor < 0 || Offset(text, k + 1) <= cursor)
    ensures CharsUpTo(text, cursor, k) == CharsUpTo(text, cursor, k + 1)
  {
  }

  lemma CharsUpToStop(text: seq<int>, cursor: int, k: nat)
    requires IsText(text) && k <= |text| && (k < |text| ==> 0 <= cursor < Offset(text, k + 1))
    ensures CharsUpTo(text, cursor, k) == k
  {
  }

  /** The cursor position decides the count, whatever the offsets are. */
  lemma EndsBefore(next: nat -> nat, end: nat, cursor: int, n: nat, c: nat, k: nat)
    requires k < c <= n && Steps(next, end) && CursorAt(next, end, cursor, c, n)
    ensures cursor < 0 || Unit(next, end, k + 1) <= cursor
  {
    UnitMonotone(next, end, k + 1, c);
  }

  lemma CharsUpToNext(text: seq<int>, next: nat -> nat, end: nat, cursor: int, c: nat, k: nat)
    requires IsText(text) && k < c <= |text| && Steps(next, end) && CursorAt(next, end, cursor, c, |text|)
    requires Unit(next, end, k + 1) == Offset(text, k + 1)
    ensures CharsUpTo(text, cursor, k) == CharsUpTo(text, cursor, k + 1)
  {
    EndsBefore(next, end, cursor, |text|, c, k);
    CharsUpToStep(text, cursor, k);
  }

  lemma {:induction false} CharsUpToIs(text: seq<int>, next: nat -> nat, end: nat, cursor: int, c: nat, k: nat)
    requires IsText(text) && k <= c && Steps(next, end) && CursorAt(next, end, cursor, c, |text|)
    requires OffsetsAre(text, next, end)
    ensures CharsUpTo(text, cursor, k) == c
    decreases c - k
  {
    if k < c {
      OffsetIs(text, next, end, k + 1);
      CharsUpToNext(text, next, end, cursor, c, k);
      CharsUpToIs(text, next, end, cursor, c, k + 1);
    } else {
      if c < |text| {
        OffsetIs(text, next, end, c + 1);
      }
      CharsUpToStop(text, cursor, c);
    }
  }

  predicate OffsetsAre(text: seq<int>, next: nat -> nat, end: nat)
    requires IsText(text)
  {
    forall i {:trigger Offset(text, i)} :: 0 <= i <= |text| ==> Unit(next, end, i) == Offset(text, i)
  }

  lemma OffsetIs(text: seq<int>, next: nat -> nat, end: nat, k: nat)
    requires IsText(text) && OffsetsAre(text, next, end) && k <= |text|
    ensures Unit(next, end, k) == Offset(text, k)
  {
  }

  /** The number of units is where they first reach the end. */
  lemma UnitCount(next: nat -> nat, end: nat, n: nat, k: nat)
    requires Steps(next, end) && Unit(next, end, n) == end && (n > 0 ==> Unit(next, end, n - 1) < end)
    requires Unit(next, end, k) == end && (k > 0 ==> Unit(next, end, k - 1) < end)
    ensures k == n
  {
    if k < n {
      UnitMonotone(next, end, k, n - 1);
    } else if k > n {
      UnitMonotone(next, end, n, k - 1);
    }
  }

  lemma TextUnits(text: seq<int>)
    requires IsText(text)
    ensures OffsetsAre(text, After(EncodeAll(text)), |EncodeAll(text)|)
  {
    forall i | 0 <= i <= |text|
      ensures Unit(After(EncodeAll(text)), |EncodeAll(text)|, i) == Offset(text, i)
    {
      UnitsOfText(text, i);
    }
  }

  lemma LastOffset(text: seq<int>)
    requires IsText(text)
    ensures Offset(text, |text|) == |EncodeAll(text)|
    ensures text != [] ==> Offset(text, |text| - 1) < |EncodeAll(text)|
  {
    OffsetEnds(text);
    if text != [] {
      DecodeAt(text, |text| - 1);
    }
  }

  lemma OneWidthEach(text: seq<int>, next: nat -> nat, end: nat, cursor: int, k: nat, c: nat, bytePos: nat)
    requires IsText(text) && end == |EncodeAll(text)| && Steps(next, end) && OffsetsAre(text, next, end)
    requires Reached(next, end, cursor, k, c, end, bytePos)
    ensures k == |text| && bytePos == Offset(text, c)
  {
    LastOffset(text);
    OffsetIs(text, next, end, |text|);
    if text != [] {
      OffsetIs(text, next, end, |text| - 1);
    }
    UnitCount(next, end, |text|, k);
    OffsetIs(text, next, end, c);
  }

  lemma LoadedAs(b: Buffer, text: seq<int>, next: nat -> nat, width: nat -> nat, cursor: int)
    requires IsText(text) && b.line == EncodeAll(text) && LoadedBy(b, next, width, cursor) && Steps(next, |b.line|)
    requires OffsetsAre(text, next, |b.line|)
    ensures InStep(b, text, CharsUpTo(text, cursor, 0))
  {
    OneWidthEach(text, next, |b.line|, cursor, |b.widths|, b.charPos, b.bytePos);
    CharsUpToIs(text, next, |b.line|, cursor, b.charPos, 0);
  }

  /** Loading a text puts the editor in step with it. */
  lemma LoadedText(b: Buffer, text: seq<int>, cursor: int, measure: int -> int)
    requires IsText(text) && Loaded(b, EncodeAll(text), cursor, measure)
    ensures InStep(b, text, CharsUpTo(text, cursor, 0))
  {
    AfterSteps(b.line);
    TextUnits(text);
    LoadedAs(b, text, After(b.line), WidthAt(b.line, measure), cursor);
  }
}
