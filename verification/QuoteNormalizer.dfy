/** Turning Python-style quoting into JSON quoting (common/chat-peg-parser.cpp), as a three-mode
    transducer with one character of lookahead. */
module QuoteNormalizer {
  import JsonText

  datatype Mode = Outside | Single | Double

  /** What one iteration emits, the mode it leaves, and how many characters it consumes. */
  datatype Move = Move(out: string, mode: Mode, taken: nat)

  function Step(mode: Mode, s: string): (m: Move)
    requires s != ""
    ensures 1 <= m.taken <= |s| && m.out != ""
  {
    var c := s[0];
    if c == '\\' && |s| > 1 then
      match mode
      case Single =>
        if s[1] == '\'' then Move("'", mode, 2)
        else if s[1] == '"' then Move("\\\"", mode, 2)
        else Move([c, s[1]], mode, 2)
      case Double => Move([c, s[1]], mode, 2)
      case Outside => Move([c], mode, 1)
    else if c == '"' then
      match mode
      case Single => Move("\\\"", Single, 1)
      case Double => Move("\"", Outside, 1)
      case Outside => Move("\"", Double, 1)
    else if c == '\'' then
      match mode
      case Double => Move("'", Double, 1)
      case Single => Move("\"", Outside, 1)
      case Outside => Move("\"", Single, 1)
    else Move([c], mode, 1)
  }

  /** The normalized text of `s` when reading starts in `mode`. */
  function Normalize(mode: Mode, s: string): string
    decreases |s|
  {
    if s == "" then ""
    else
      var m := Step(mode, s);
      m.out + Normalize(m.mode, s[m.taken..])
  }

  /** One iteration of the loop as written, over an index and two flags: what it appends and the index
      and flags it leaves. */
  method Iterate(input: string, i: nat, inSingle: bool, inDouble: bool)
    returns (piece: string, next: nat, inSingle': bool, inDouble': bool)
    requires i < |input| && !(inSingle && inDouble)
    ensures !(inSingle' && inDouble') && i < next
    ensures Move(piece, ModeOf(inSingle', inDouble'), next - i) == Step(ModeOf(inSingle, inDouble), input[i..])
  {
    inSingle', inDouble', next := inSingle, inDouble, i + 1;
    var c := input[i];
    if c == '\\' && i + 1 < |input| {
      var follower := input[i + 1];
      if inSingle {
        next := i + 2;
        if follower == '\'' {
          piece := "'";
        } else if follower == '"' {
          piece := "\\\"";
        } else {
          piece := [c, follower];
        }
      } else if inDouble {
        next := i + 2;
        piece := [c, follower];
      } else {
        piece := [c];
      }
    } else if c == '"' {
      if inSingle {
        piece := "\\\"";
      } else {
        inDouble' := !inDouble;
        piece := [c];
      }
    } else if c == '\'' {
      if inDouble {
        piece := [c];
      } else if inSingle {
        inSingle' := false;
        piece := "\"";
      } else {
        inSingle' := true;
        piece := "\"";
      }
    } else {
      piece := [c];
    }
  }

  lemma NormalizeUnfolds(result: string, mode: Mode, input: string, i: nat)
    requires i < |input|
    ensures var m := Step(mode, input[i..]);
            result + Normalize(mode, input[i..]) == result + m.out + Normalize(m.mode, input[i + m.taken..])
  {
    var m := Step(mode, input[i..]);
    assert input[i..][m.taken..] == input[i + m.taken..];
    assert result + (m.out + Normalize(m.mode, input[i + m.taken..]))
        == result + m.out + Normalize(m.mode, input[i + m.taken..]);
  }

  lemma NormalizePlain(mode: Mode, c: char, rest: string)
    requires c != '\\' && c != '"' && c != '\''
    ensures Normalize(mode, [c] + rest) == [c] + Normalize(mode, rest)
  {
    assert ([c] + rest)[1..] == rest;
  }

  lemma NormalizeOpening(rest: string)
    ensures Normalize(Outside, ['\''] + rest) == "\"" + Normalize(Single, rest)
  {
    assert (['\''] + rest)[1..] == rest;
  }

  /** What is written so far, and what is still to come, make up the result. */
  ghost predicate PartWay(result: string, mode: Mode, input: string, i: nat) {
    i <= |input| && result + Normalize(mode, input[i..]) == Normalize(Outside, input)
  }

  lemma PartStep(result: string, mode: Mode, input: string, i: nat, m: Move)
    requires PartWay(result, mode, input, i) && i < |input| && m == Step(mode, input[i..])
    ensures PartWay(result + m.out, m.mode, input, i + m.taken)
  {
    NormalizeUnfolds(result, mode, input, i);
  }

  lemma PartEnds(result: string, mode: Mode, input: string)
    requires PartWay(result, mode, input, |input|)
    ensures result == Normalize(Outside, input)
  {
    assert result + "" == result;
  }

  lemma PartBegins(input: string)
    ensures PartWay("", Outside, input, 0)
  {
    assert input[0..] == input;
  }

  /** One iteration, with what it means for the result. */
  method Advance(input: string, i: nat, inSingle: bool, inDouble: bool, result: string)
    returns (result': string, next: nat, inSingle': bool, inDouble': bool)
    requires i < |input| && !(inSingle && inDouble) && PartWay(result, ModeOf(inSingle, inDouble), input, i)
    ensures i < next && !(inSingle' && inDouble') && PartWay(result', ModeOf(inSingle', inDouble'), input, next)
  {
    var piece;
    piece, next, inSingle', inDouble' := Iterate(input, i, inSingle, inDouble);
    PartStep(result, ModeOf(inSingle, inDouble), input, i, Move(piece, ModeOf(inSingle', inDouble'), next - i));
    result' := result + piece;
  }

  method NormalizeQuotes(input: string) returns (result: string)
    ensures result == Normalize(Outside, input)
  {
    result := "";
    var inSingle, inDouble := false, false;
    var i: nat := 0;
    PartBegins(input);
    while i < |input|
      invariant i <= |input| && !(inSingle && inDouble)
      invariant PartWay(result, ModeOf(inSingle, inDouble), input, i)
      decreases |input| - i
    {
      result, i, inSingle, inDouble := Advance(input, i, inSingle, inDouble, result);
    }
    PartEnds(result, ModeOf(inSingle, inDouble), input);
  }

  function ModeOf(inSingle: bool, inDouble: bool): Mode
    requires !(inSingle && inDouble)
  {
    if inSingle then Single else if inDouble then Double else Outside
  }

  // ----- meaning

  /** What a text says: characters outside strings, string delimiters, literal characters of a string
      and escapes that stand for something else. `Cut` is a string that ends in half an escape. */
  datatype Token = Raw(c: char) | Open | Close | Literal(c: char) | Escape(c: char) | Cut

  /** Reads a text with both quoting styles. Only the single-quoted style has an escaped `'`. */
  function LexBoth(mode: Mode, s: string): seq<Token>
    decreases |s|
  {
    if s == "" then []
    else if mode.Outside? then
      if s[0] == '"' then [Open] + LexBoth(Double, s[1..])
      else if s[0] == '\'' then [Open] + LexBoth(Single, s[1..])
      else [Raw(s[0])] + LexBoth(Outside, s[1..])
    else if s[0] == '\\' then
      if |s| == 1 then [Cut]
      else if s[1] == '"' || (s[1] == '\'' && mode.Single?) then [Literal(s[1])] + LexBoth(mode, s[2..])
      else [Escape(s[1])] + LexBoth(mode, s[2..])
    else if s[0] == (if mode.Single? then '\'' else '"') then [Close] + LexBoth(Outside, s[1..])
    else [Literal(s[0])] + LexBoth(mode, s[1..])
  }

  /** Reads a text with JSON's double-quoted strings only. */
  function LexJson(inString: bool, s: string): seq<Token>
    decreases |s|
  {
    if s == "" then []
    else if !inString then
      if s[0] == '"' then [Open] + LexJson(true, s[1..])
      else [Raw(s[0])] + LexJson(false, s[1..])
    else if s[0] == '\\' then
      if |s| == 1 then [Cut]
      else if s[1] == '"' then [Literal('"')] + LexJson(true, s[2..])
      else [Escape(s[1])] + LexJson(true, s[2..])
    else if s[0] == '"' then [Close] + LexJson(false, s[1..])
    else [Literal(s[0])] + LexJson(true, s[1..])
  }

  lemma PieceOutsideMeans(s: string, rest: string)
    requires s != ""
    requires var m := Step(Outside, s); LexJson(!m.mode.Outside?, rest) == LexBoth(m.mode, s[m.taken..])
    ensures LexJson(false, Step(Outside, s).out + rest) == LexBoth(Outside, s)
  {
    var out := Step(Outside, s).out;
    assert (out + rest)[0] == out[0] && (out + rest)[1..] == rest;
  }

  lemma PieceInsideMeans(mode: Mode, s: string, rest: string)
    requires s != "" && !mode.Outside?
    requires var m := Step(mode, s); LexJson(!m.mode.Outside?, rest) == LexBoth(m.mode, s[m.taken..])
    requires Step(mode, s).taken == |s| ==> rest == ""
    ensures LexJson(true, Step(mode, s).out + rest) == LexBoth(mode, s)
  {
    var out := Step(mode, s).out;
    assert (out + rest)[0] == out[0] && (out + rest)[|out|..] == rest;
    if |out| == 2 {
      assert (out + rest)[1] == out[1];
    }
  }

  /** Normalizing keeps the meaning of every text, and leaves only JSON strings behind. */
  lemma {:induction false} NormalizePreservesMeaning(mode: Mode, s: string)
    ensures LexJson(!mode.Outside?, Normalize(mode, s)) == LexBoth(mode, s)
    decreases |s|
  {
    if s != "" {
      var m := Step(mode, s);
      NormalizePreservesMeaning(m.mode, s[m.taken..]);
      if mode.Outside? {
        PieceOutsideMeans(s, Normalize(m.mode, s[m.taken..]));
      } else {
        PieceInsideMeans(mode, s, Normalize(m.mode, s[m.taken..]));
      }
    }
  }

  /** A second pass changes nothing: the output has no single-quoted string left. */
  lemma {:induction false} NormalizeIdempotent(mode: Mode, s: string)
    ensures Normalize(Settled(mode), Normalize(mode, s)) == Normalize(mode, s)
    decreases |s|
  {
    if s != "" {
      var m := Step(mode, s);
      var rest := Normalize(m.mode, s[m.taken..]);
      var all := m.out + rest;
      NormalizeIdempotent(m.mode, s[m.taken..]);
      StepReplays(mode, s, rest);
      assert all[|m.out|..] == rest;
    }
  }

  /** Reading back what a step emitted is a single step again. */
  lemma StepReplays(mode: Mode, s: string, rest: string)
    requires s != "" && (s == "\\" ==> rest == "")
    ensures var m := Step(mode, s);
            Step(Settled(mode), m.out + rest) == Move(m.out, Settled(m.mode), |m.out|)
  {
    var m := Step(mode, s);
    assert (m.out + rest)[0] == m.out[0];
    if |m.out| == 2 {
      assert (m.out + rest)[1] == m.out[1];
    }
  }

  /** The mode in which the output is read back. */
  function Settled(mode: Mode): Mode {
    if mode.Outside? then Outside else Double
  }

  // ----- streaming

  /** Reading `s` from `mode` ends with a backslash inside a single-quoted string whose partner has
      not arrived yet. */
  predicate EndsInHalfEscape(mode: Mode, s: string)
    decreases |s|
  {
    s != "" && if s == "\\" then mode.Single? else var m := Step(mode, s); EndsInHalfEscape(m.mode, s[m.taken..])
  }

  /** Normalized text of a growing input only grows, except when the cut falls inside an escaped single
      quote of a single-quoted string: that backslash has been sent and should not have been. */
  lemma {:induction false} NormalizeStreamsIff(mode: Mode, x: string, y: string)
    requires x <= y
    ensures Normalize(mode, x) <= Normalize(mode, y) <==>
            !(EndsInHalfEscape(mode, x) && |x| < |y| && y[|x|] == '\'')
    decreases |x|
  {
    if x == "" || x == y {
    } else if x == "\\" {
      assert Normalize(mode, x) == "\\" by { assert x[1..] == ""; }
      var m := Step(mode, y);
      assert Normalize(mode, y)[0] == m.out[0];
    } else {
      assert x[0] == y[0] && (|x| > 1 ==> x[1] == y[1]);
      var m := Step(mode, x);
      assert Step(mode, y) == m;
      var x', y' := x[m.taken..], y[m.taken..];
      NormalizeStreamsIff(m.mode, x', y');
      assert |x| < |y| ==> y'[|x'|] == y[|x|];
      JsonText.PrefixCancel(m.out, Normalize(m.mode, x'), Normalize(m.mode, y'));
    }
  }
}
