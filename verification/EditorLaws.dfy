/** What the keys of the line editor mean to someone who types, stated on the text and the cursor. */
module EditorLaws {
  import opened Bytes
  import opened Utf8
  import opened LineEditor
  import opened ReadLine

  // ----- word moves

  lemma {:induction false} SkipLeftIs(text: seq<int>, pos: nat, isSpace: int -> bool, space: bool)
    requires pos <= |text|
    ensures var r := SkipLeft(text, pos, isSpace, space);
            && (forall i :: r <= i < pos ==> isSpace(text[i]) == space)
            && (r > 0 ==> isSpace(text[r - 1]) != space)
    decreases pos
  {
    if pos > 0 && isSpace(text[pos - 1]) == space {
      SkipLeftIs(text, pos - 1, isSpace, space);
    }
  }

  lemma {:induction false} SkipRightIs(text: seq<int>, pos: nat, isSpace: int -> bool, space: bool)
    requires pos <= |text|
    ensures var r := SkipRight(text, pos, isSpace, space);
            && (forall i :: pos <= i < r ==> isSpace(text[i]) == space)
            && (r < |text| ==> isSpace(text[r]) != space)
    decreases |text| - pos
  {
    if pos < |text| && isSpace(text[pos]) == space {
      SkipRightIs(text, pos + 1, isSpace, space);
    }
  }

  /** All of `from..to` is space, or none of it is. */
  predicate Span(text: seq<int>, from: nat, to: nat, isSpace: int -> bool, space: bool) {
    from <= to <= |text| && forall i :: from <= i < to ==> isSpace(text[i]) == space
  }

  lemma SpanAt(text: seq<int>, from: nat, to: nat, isSpace: int -> bool, space: bool, i: int)
    ensures Span(text, from, to, isSpace, space) && from <= i < to ==> isSpace(text[i]) == space
  {
  }

  /** A word without space in it runs from `r` to `m`, it cannot be extended to the left, and there is only space
      between it and `pos`; at the start of the text the word may be missing. */
  predicate WordBefore(text: seq<int>, r: nat, m: nat, pos: nat, isSpace: int -> bool) {
    && Span(text, r, m, isSpace, false) && Span(text, m, pos, isSpace, true)
    && (r == 0 || (r < m && isSpace(text[r - 1])))
  }

  lemma WordBeforeUnique(text: seq<int>, r: nat, m: nat, r': nat, m': nat, pos: nat, isSpace: int -> bool)
    requires WordBefore(text, r, m, pos, isSpace) && WordBefore(text, r', m', pos, isSpace)
    ensures r <= r'
  {
    SpanAt(text, r', m', isSpace, false, r - 1);
    SpanAt(text, r, m, isSpace, false, r);
    SpanAt(text, m', pos, isSpace, true, r);
  }

  /** The cursor after a word move to the left is exactly the start of the word before it. */
  lemma WordLeftIff(p: Pad, isSpace: int -> bool, r: nat)
    requires PadOk(p)
    ensures Edit(p, WordLeft, isSpace) == p.(pos := r) <==> exists m: nat :: WordBefore(p.text, r, m, p.pos, isSpace)
  {
    var m := SkipLeft(p.text, p.pos, isSpace, true);
    var q := SkipLeft(p.text, m, isSpace, false);
    SkipLeftIs(p.text, p.pos, isSpace, true);
    SkipLeftIs(p.text, m, isSpace, false);
    assert WordBefore(p.text, q, m, p.pos, isSpace);
    if m': nat :| WordBefore(p.text, r, m', p.pos, isSpace) {
      WordBeforeUnique(p.text, q, m, r, m', p.pos, isSpace);
      WordBeforeUnique(p.text, r, m', q, m, p.pos, isSpace);
    }
  }

  /** From `pos` there is space up to `a`, a word up to `b` and space up to `r`, where the next word begins; or
      the text ends with that. */
  predicate WordAfter(text: seq<int>, pos: nat, a: nat, b: nat, r: nat, isSpace: int -> bool) {
    && Span(text, pos, a, isSpace, true) && Span(text, a, b, isSpace, false) && Span(text, b, r, isSpace, true)
    && (r == |text| || (a < b < r && !isSpace(text[r])))
  }

  lemma WordAfterUnique(text: seq<int>, pos: nat, a: nat, b: nat, r: nat, a': nat, b': nat, r': nat, isSpace: int -> bool)
    requires WordAfter(text, pos, a, b, r, isSpace) && WordAfter(text, pos, a', b', r', isSpace)
    ensures r >= r'
  {
    SpanAt(text, a, b, isSpace, false, a);
    SpanAt(text, b, r, isSpace, true, r - 1);
    SpanAt(text, pos, a', isSpace, true, a);
    SpanAt(text, b', r', isSpace, true, a);
    SpanAt(text, b', r', isSpace, true, r);
    SpanAt(text, pos, a', isSpace, true, r);
    SpanAt(text, a', b', isSpace, false, r - 1);
  }

  /** The cursor after a word move to the right is exactly the start of the word after the next, or the end. */
  lemma WordRightIff(p: Pad, isSpace: int -> bool, r: nat)
    requires PadOk(p)
    ensures Edit(p, WordRight, isSpace) == p.(pos := r)
            <==> exists a: nat, b: nat :: WordAfter(p.text, p.pos, a, b, r, isSpace)
  {
    var a := SkipRight(p.text, p.pos, isSpace, true);
    var b := SkipRight(p.text, a, isSpace, false);
    var q := SkipRight(p.text, b, isSpace, true);
    SkipRightIs(p.text, p.pos, isSpace, true);
    SkipRightIs(p.text, a, isSpace, false);
    SkipRightIs(p.text, b, isSpace, true);
    assert WordAfter(p.text, p.pos, a, b, q, isSpace);
    if a': nat, b': nat :| WordAfter(p.text, p.pos, a', b', r, isSpace) {
      WordAfterUnique(p.text, p.pos, a, b, q, a', b', r, isSpace);
      WordAfterUnique(p.text, p.pos, a', b', r, a, b, q, isSpace);
    }
  }

  // ----- completion

  /** The offsets up to `r` are at most `cursor`, and the next one is not. */
  predicate EndsUpTo(text: seq<int>, cursor: int, k: nat, r: nat)
    requires IsText(text) && k <= r <= |text|
  {
    && (forall i :: k < i <= r ==> Offset(text, i) <= cursor)
    && (r < |text| ==> Offset(text, r + 1) > cursor)
  }

  lemma OneMoreEnds(text: seq<int>, cursor: int, k: nat, r: nat)
    requires IsText(text) && k < r <= |text| && Offset(text, k + 1) <= cursor && EndsUpTo(text, cursor, k + 1, r)
    ensures EndsUpTo(text, cursor, k, r)
  {
  }

  lemma {:induction false} CharsUpToIs(text: seq<int>, cursor: int, k: nat)
    requires IsText(text) && k <= |text|
    ensures var r := CharsUpTo(text, cursor, k); if cursor < 0 then r == |text| else EndsUpTo(text, cursor, k, r)
    decreases |text| - k
  {
    if k < |text| && (cursor < 0 || Offset(text, k + 1) <= cursor) {
      CharsUpToIs(text, cursor, k + 1);
      if cursor >= 0 {
        OneMoreEnds(text, cursor, k, CharsUpTo(text, cursor, k + 1));
      }
    }
  }

  /** Completion shows the candidate with the cursor behind all the characters whose bytes end at or before the
      wanted byte, or behind the last one if no byte is wanted. The only candidate for a complete line changes
      nothing. */
  lemma CompletionShows(p: Pad, k: Key, isSpace: int -> bool)
    requires PadOk(p) && IsKey(k) && k.Complete?
    ensures var q := Edit(p, k, isSpace);
            if k.candidate == p.text && !k.others then q == p
            else
              && q == p.(text := k.candidate, pos := q.pos) && q.pos <= |k.candidate|
              && (k.cursor < 0 ==> q.pos == |k.candidate|)
              && (k.cursor >= 0 ==> forall i :: 0 < i <= |k.candidate| ==>
                                      (|EncodeAll(k.candidate[..i])| <= k.cursor <==> i <= q.pos))
  {
    CharsUpToIs(k.candidate, k.cursor, 0);
    var r := CharsUpTo(k.candidate, k.cursor, 0);
    if k.cursor >= 0 {
      forall i | 0 < i <= |k.candidate|
        ensures |EncodeAll(k.candidate[..i])| <= k.cursor <==> i <= r
      {
        assert Offset(k.candidate, i) == |EncodeAll(k.candidate[..i])|;
        if i > r {
          OffsetsGrow(k.candidate, r + 1, i);
        }
      }
    }
  }

  lemma {:induction false} OffsetsGrow(text: seq<int>, i: nat, j: nat)
    requires IsText(text) && i <= j <= |text|
    ensures Offset(text, i) <= Offset(text, j)
    decreases j - i
  {
    if i < j {
      OffsetShape(text, j - 1);
      OffsetsGrow(text, i, j - 1);
    }
  }

  // ----- typing

  function Typed(t: seq<int>): (ks: seq<Key>)
    ensures |ks| == |t| && forall i :: 0 <= i < |t| ==> ks[i].Insert? && ks[i].c == if t[i] < 0 then 0 else t[i]
  {
    seq(|t|, i requires 0 <= i < |t| => Insert(if t[i] < 0 then 0 else t[i], 1))
  }

  lemma TypeOne(p: Pad, c: nat, t: seq<int>)
    requires PadOk(p)
    ensures var q := p.text[..p.pos] + [c] + p.text[p.pos..];
            q[..p.pos + 1] + t + q[p.pos + 1..] == p.text[..p.pos] + ([c] + t) + p.text[p.pos..]
  {
    var q := p.text[..p.pos] + [c] + p.text[p.pos..];
    assert q[..p.pos + 1] == p.text[..p.pos] + [c] && q[p.pos + 1..] == p.text[p.pos..];
  }

  /** Typing a text puts it at the cursor, and the cursor behind it. */
  lemma {:induction false} TypingInserts(p: Pad, t: seq<int>, isSpace: int -> bool)
    requires PadOk(p) && IsText(t)
    ensures forall i :: 0 <= i < |t| ==> IsKey(Typed(t)[i])
    ensures var q := PressAll(p, Typed(t), isSpace);
            q.text == p.text[..p.pos] + t + p.text[p.pos..] && q.pos == p.pos + |t|
    decreases |t|
  {
    if t == [] {
      assert p.text[..p.pos] + [] + p.text[p.pos..] == p.text;
    } else {
      var q := Press(p, Insert(t[0], 1), isSpace);
      assert Typed(t) == [Insert(t[0], 1)] + Typed(t[1..]);
      assert forall i :: 0 <= i < |t[1..]| ==> t[1..][i] == t[i + 1];
      PressFirst(p, Insert(t[0], 1), Typed(t[1..]), isSpace);
      TypingInserts(q, t[1..], isSpace);
      TypeOne(p, t[0], t[1..]);
      assert [t[0]] + t[1..] == t;
    }
  }

  /** Backspace undoes an insertion, and so do left and delete. */
  lemma KeysUndo(p: Pad, c: nat, answer: int, isSpace: int -> bool)
    requires PadOk(p) && IsCodePoint(c)
    ensures var q := Edit(p, Insert(c, answer), isSpace);
            && PadOk(q) && Edit(q, Backspace, isSpace) == p
            && Edit(q, Left, isSpace) == q.(pos := p.pos) && PadOk(q.(pos := p.pos))
            && Edit(q.(pos := p.pos), Delete, isSpace) == p
  {
    var q := Edit(p, Insert(c, answer), isSpace);
    InsertedText(p.text, p.pos, c);
    assert PadOk(q);
  }

  lemma InsertedText(text: seq<int>, pos: nat, c: nat)
    requires IsText(text) && pos <= |text| && IsCodePoint(c)
    ensures var t := text[..pos] + [c] + text[pos..]; IsText(t) && t[..pos] + t[pos + 1..] == text
  {
  }

  /** Right undoes left, and left and delete are backspace. */
  lemma LeftUndone(p: Pad, isSpace: int -> bool)
    requires PadOk(p) && p.pos > 0
    ensures var q := Edit(p, Left, isSpace);
            && PadOk(q) && Edit(q, Right, isSpace) == p
            && Edit(q, Delete, isSpace) == Edit(p, Backspace, isSpace)
  {
  }

  /** Home and End go to the ends of the text: what is typed there comes before it or after it. */
  lemma HomeAndEnd(p: Pad, c: nat, answer: int, isSpace: int -> bool)
    requires PadOk(p) && IsCodePoint(c)
    ensures var q := Edit(p, Home, isSpace);
            && PadOk(q) && Edit(q, Insert(c, answer), isSpace).text == [c] + p.text && Edit(q, Left, isSpace) == q
    ensures var q := Edit(p, End, isSpace);
            && PadOk(q) && Edit(q, Insert(c, answer), isSpace).text == p.text + [c] && Edit(q, Right, isSpace) == q
  {
    assert p.text[..0] + [c] + p.text[0..] == [c] + p.text;
    assert p.text[..|p.text|] + [c] + p.text[|p.text|..] == p.text + [c];
  }

  lemma PressFirst(p: Pad, k: Key, ks: seq<Key>, isSpace: int -> bool)
    requires PadOk(p) && IsKey(k) && forall i :: 0 <= i < |ks| ==> IsKey(ks[i])
    ensures PadOk(Press(p, k, isSpace))
    ensures PressAll(p, [k] + ks, isSpace) == PressAll(Press(p, k, isSpace), ks, isSpace)
  {
    EditKeepsOk(p, k, isSpace);
    assert ([k] + ks)[0] == k && ([k] + ks)[1..] == ks;
  }

  // ----- history

  function Ups(n: nat): (ks: seq<Key>)
    ensures |ks| == n && forall i :: 0 <= i < n ==> ks[i] == Up
  {
    seq(n, _ => Up)
  }

  function Downs(n: nat): (ks: seq<Key>)
    ensures |ks| == n && forall i :: 0 <= i < n ==> ks[i] == Down
  {
    seq(n, _ => Down)
  }

  /** The history entry is shown, and the typed line is kept. */
  predicate Shows(p: Pad, i: nat, history: seq<seq<int>>, typed: seq<int>) {
    && p.history == history && p.viewing == At(i) && p.backup == typed
    && i < |history| && p.text == history[i] && p.pos == |history[i]|
  }

  lemma {:induction false} MoreUps(p: Pad, i: nat, n: nat, isSpace: int -> bool)
    requires PadOk(p) && Shows(p, i, p.history, p.backup)
    ensures Shows(PressAll(p, Ups(n), isSpace), if i >= n then i - n else 0, p.history, p.backup)
    decreases n
  {
    if n > 0 {
      var q := Press(p, Up, isSpace);
      assert Ups(n) == [Up] + Ups(n - 1);
      PressFirst(p, Up, Ups(n - 1), isSpace);
      MoreUps(q, if i > 0 then i - 1 else 0, n - 1, isSpace);
    }
  }

  lemma FirstUp(p: Pad, isSpace: int -> bool)
    requires PadOk(p) && p.viewing.NotViewing? && p.history != []
    ensures Shows(Press(p, Up, isSpace), |p.history| - 1, p.history, p.text)
  {
  }

  /** Going up `n` times shows the `n`th last line of the history, or the first if there are not so many, with the
      cursor at its end. */
  lemma UpsShow(p: Pad, n: nat, isSpace: int -> bool)
    requires PadOk(p) && p.viewing.NotViewing? && p.history != [] && n > 0
    ensures Shows(PressAll(p, Ups(n), isSpace), if n <= |p.history| then |p.history| - n else 0, p.history, p.text)
  {
    var q := Press(p, Up, isSpace);
    assert Ups(n) == [Up] + Ups(n - 1);
    PressFirst(p, Up, Ups(n - 1), isSpace);
    FirstUp(p, isSpace);
    MoreUps(q, |p.history| - 1, n - 1, isSpace);
  }

  /** Going down shows the later lines, and behind the last one the line that was typed. */
  lemma {:induction false} DownsShow(p: Pad, i: nat, n: nat, isSpace: int -> bool)
    requires PadOk(p) && Shows(p, i, p.history, p.backup) && i + n <= |p.history|
    ensures var q := PressAll(p, Downs(n), isSpace);
            if i + n < |p.history| then Shows(q, i + n, p.history, p.backup)
            else q.history == p.history && q.viewing.NotViewing? && q.text == p.backup && q.pos == |p.backup|
    decreases n
  {
    if n > 0 {
      var q := Press(p, Down, isSpace);
      assert Downs(n) == [Down] + Downs(n - 1);
      PressFirst(p, Down, Downs(n - 1), isSpace);
      if i + 1 < |p.history| {
        DownsShow(q, i + 1, n - 1, isSpace);
      }
    }
  }

  // ----- Enter

  /** What Enter and the end of input return for a line whose highlight is right: a line as it stands; without
      its last character if that is a slash or a backslash, and with nothing left of a space and a slash. At the
      end of input a backslash is a line break. More is wanted after a backslash or in multi-line mode, but not
      after both, and never after a slash or at the end of input. */
  lemma EnterMeans(text: seq<int>, eof: bool, multiline: bool)
    requires IsText(text)
    ensures EndsSpecial(text) ==> EncodeAll(text) != []
    ensures var line, wants := ReturnedText(text, EndsSpecial(text), eof),
                               Returned(EncodeAll(text), EndsSpecial(text), eof, multiline).1;
            if text == [] || text[|text| - 1] !in {0x2F, 0x5C} then line == text && wants == (multiline && !eof)
            else
              var rest := text[..|text| - 1];
              if text[|text| - 1] == 0x5C then line == (if eof then rest + [0x0A] else rest) && wants == !multiline
              else !wants && line == if rest == [0x20] then []
                                     else if eof || rest == [] || rest[|rest| - 1] != 0x0A then rest
                                     else rest[..|rest| - 1]
  {
    if EndsSpecial(text) {
      DropLastBytes(text);
      WantsMore(EncodeAll(text), eof, multiline);
      EnterAtSpecial(text, eof);
    } else {
      assert (text + [0x0A])[..|text|] == text;
    }
  }

  lemma WantsMore(line: seq<Byte>, eof: bool, multiline: bool)
    requires line != []
    ensures Returned(line, true, eof, multiline).1 == (line[|line| - 1] == 0x5C && !multiline)
  {
  }

  lemma EnterAtSpecial(text: seq<int>, eof: bool)
    requires EndsSpecial(text)
    ensures var line, rest := ReturnedText(text, true, eof), text[..|text| - 1];
            if text[|text| - 1] == 0x5C then line == if eof then rest + [0x0A] else rest
            else line == if rest == [0x20] then [] else if eof then rest else DropBreak(rest)
  {
    var rest := text[..|text| - 1];
    assert (rest + [0x0A])[..|rest|] == rest;
  }

  /** The next call starts with an empty line. A returned line becomes the last of the history, which never gets
      the same line twice in a row, and viewing ends; an empty line, or one ended by the input, changes neither. */
  lemma NextCall(p: Pad, eof: bool)
    ensures var q, out := NextPad(p, eof), ReturnedText(p.text, p.special, eof);
            && q.text == [] && q.pos == 0 && !q.special
            && if eof || out == [] then q.history == p.history && q.viewing == p.viewing && q.backup == p.backup
               else
                 && q.viewing.NotViewing? && q.backup == []
                 && q.history != [] && q.history[|q.history| - 1] == out
                 && (q.history == p.history || (q.history == p.history + [out]
                                                && (p.history != [] ==> p.history[|p.history| - 1] != out)))
  {
  }
}
