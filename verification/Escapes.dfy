/** Escape processing of command-line strings, done in place (common/common.cpp). */
module Escapes {
  import opened Hex
  import opened Wrappers

  // ----- two hexadecimal characters, as strtol reads them

  /** The byte denoted by two characters that strtol consumes entirely in base 16: two digits, or leading
      space or a sign and one digit. A negative number wraps to a byte. */
  function HexPair(a: char, b: char): Option<char> {
    if !IsHex(b) then None
    else if IsHex(a) then Some((HexValue(a) * 16 + HexValue(b)) as char)
    else if a == ' ' || '\t' <= a <= '\r' || a == '+' then Some(HexValue(b) as char)
    else if a == '-' then Some(((256 - HexValue(b)) % 256) as char)
    else None
  }

  // ----- the meaning: a left-to-right reading of the original

  /** What one step reads: how many characters, and what they stand for. */
  datatype Item = Item(taken: nat, out: string)

  function Next(s: string): (it: Item)
    requires s != ""
    ensures 1 <= it.taken <= |s| && 1 <= |it.out| <= it.taken
  {
    if s[0] == '\\' && |s| > 1 then
      match s[1]
      case 'n' => Item(2, "\n")
      case 'r' => Item(2, "\r")
      case 't' => Item(2, "\t")
      case '\'' => Item(2, "'")
      case '\"' => Item(2, "\"")
      case '\\' => Item(2, "\\")
      case 'x' =>
        if |s| > 3 && HexPair(s[2], s[3]).Some? then Item(4, [HexPair(s[2], s[3]).value])
        else Item(2, ['\\', 'x'])
      case c => Item(2, ['\\', c])
    else Item(1, [s[0]])
  }

  function Unescape(s: string): (r: string)
    ensures |r| <= |s|
    decreases |s|
  {
    if s == "" then "" else var it := Next(s); it.out + Unescape(s[it.taken..])
  }

  // ----- the code as written

  lemma UnescapeUnfolds(done: string, s: string, i: nat)
    requires i < |s|
    ensures var it := Next(s[i..]);
            done + Unescape(s[i..]) == done + it.out + Unescape(s[i + it.taken..])
  {
    var it := Next(s[i..]);
    assert s[i..][it.taken..] == s[i + it.taken..];
    assert done + (it.out + Unescape(s[i + it.taken..])) == done + it.out + Unescape(s[i + it.taken..]);
  }

  /** `n` characters are written, everything from `i` on is as it was, and the rest is still to be read. */
  ghost predicate PartWay(buf: string, s: string, n: nat, i: nat) {
    && |buf| == |s| && n <= i <= |s| && buf[i..] == s[i..]
    && buf[..n] + Unescape(s[i..]) == Unescape(s)
  }

  method Put(buf: array<char>, n: nat, out: string)
    requires 1 <= |out| <= 2 && n + |out| <= buf.Length
    modifies buf
    ensures buf[..n + |out|] == old(buf[..n]) + out && buf[n + |out|..] == old(buf[n + |out|..])
  {
    buf[n] := out[0];
    if |out| == 2 {
      buf[n + 1] := out[1];
    }
  }

  /** One step of the loop: the switch on the character after a backslash, or a plain copy. */
  method ReadItem(buf: array<char>, i: nat) returns (it: Item)
    requires i < buf.Length
    ensures it == Next(buf[i..])
  {
    var len := buf.Length;
    if buf[i] == '\\' && i + 1 < len {
      var c := buf[i + 1];
      if c == 'n' {
        it := Item(2, "\n");
      } else if c == 'r' {
        it := Item(2, "\r");
      } else if c == 't' {
        it := Item(2, "\t");
      } else if c == '\'' || c == '\"' || c == '\\' {
        it := Item(2, [c]);
      } else {
        it := Item(2, ['\\', c]);
        if c == 'x' && i + 3 < len {
          var val := HexPair(buf[i + 2], buf[i + 3]);
          if val.Some? {
            it := Item(4, [val.value]);
          }
        }
      }
    } else {
      it := Item(1, [buf[i]]);
    }
  }

  lemma SameSuffix(a: string, b: string, m: nat, j: nat)
    requires |a| == |b| && m <= j <= |a| && a[m..] == b[m..]
    ensures a[j..] == b[j..]
  {
    assert a[j..] == a[m..][j - m..] && b[j..] == b[m..][j - m..];
  }

  /** What is still to be read stays as it was. */
  lemma UnreadKept(before: string, after: string, s: string, m: nat, i: nat, j: nat)
    requires |before| == |after| == |s| && i <= j <= |s| && m <= j
    requires before[i..] == s[i..] && after[m..] == before[m..]
    ensures after[j..] == s[j..]
  {
    SameSuffix(before, s, i, j);
    SameSuffix(after, before, m, j);
  }

  lemma StepKeeps(before: string, after: string, s: string, n: nat, i: nat, it: Item)
    requires i < |s| && PartWay(before, s, n, i) && |after| == |s| && it == Next(s[i..])
    requires n + |it.out| <= |s| && after[..n + |it.out|] == before[..n] + it.out
    requires after[n + |it.out|..] == before[n + |it.out|..]
    ensures i + it.taken <= |s| && PartWay(after, s, n + |it.out|, i + it.taken)
  {
    UnescapeUnfolds(before[..n], s, i);
    UnreadKept(before, after, s, n + |it.out|, i, i + it.taken);
  }

  /** The input is overwritten while it is read, and the result is still the reading of the original. */
  method ProcessEscapes(buf: array<char>) returns (n: nat)
    modifies buf
    ensures n <= buf.Length && buf[..n] == Unescape(old(buf[..]))
  {
    ghost var s := buf[..];
    n := 0;
    var i := 0;
    assert s[0..] == s;
    while i < buf.Length
      invariant PartWay(buf[..], s, n, i)
    {
      n, i := ProcessItem(buf, n, i, s);
    }
  }

  method ProcessItem(buf: array<char>, n: nat, i: nat, ghost s: string) returns (n': nat, i': nat)
    requires i < buf.Length && PartWay(buf[..], s, n, i)
    modifies buf
    ensures PartWay(buf[..], s, n', i') && i < i'
  {
    var it := ReadItem(buf, i);
    ghost var before := buf[..];
    assert buf[i..] == before[i..];
    Put(buf, n, it.out);
    StepKeeps(before, buf[..], s, n, i, it);
    n' := n + |it.out|;
    i' := i + it.taken;
  }

  // ----- the inverse

  function EscapeChar(c: char): string {
    if c == '\n' then "\\n"
    else if c == '\r' then "\\r"
    else if c == '\t' then "\\t"
    else if c == '\'' then "\\'"
    else if c == '\"' then "\\\""
    else if c == '\\' then "\\\\"
    else [c]
  }

  function Escape(s: string): string
    decreases |s|
  {
    if s == "" then "" else EscapeChar(s[0]) + Escape(s[1..])
  }

  lemma NextOfEscaped(c: char, rest: string)
    ensures Next(EscapeChar(c) + rest) == Item(|EscapeChar(c)|, [c])
  {
    var e := EscapeChar(c);
    assert (e + rest)[0] == e[0];
    if |e| == 2 {
      assert (e + rest)[1] == e[1];
    }
  }

  lemma {:induction false} UnescapeUndoesEscape(s: string)
    ensures Unescape(Escape(s)) == s
    decreases |s|
  {
    if s != "" {
      var e, rest := EscapeChar(s[0]), Escape(s[1..]);
      NextOfEscaped(s[0], rest);
      assert (e + rest)[|e|..] == rest;
      UnescapeUndoesEscape(s[1..]);
      assert s == [s[0]] + s[1..];
    }
  }

  /** Text without backslashes is left alone. */
  lemma {:induction false} UnescapeFixes(s: string)
    requires '\\' !in s
    ensures Unescape(s) == s
    decreases |s|
  {
    if s != "" {
      UnescapeFixes(s[1..]);
      assert s == [s[0]] + s[1..];
    }
  }

  lemma NextReads(s: string, out: string, rest: string)
    requires s != "" && Next(s).out == out && s[Next(s).taken..] == rest
    ensures Unescape(s) == out + Unescape(rest)
  {
  }

  /** What each escape stands for; any other character after a backslash stays as it is, with the backslash. */
  lemma EscapesAre(c: char, rest: string)
    ensures c != 'x' ==>
              Unescape(['\\', c] + rest) ==
              (if c == 'n' then "\U{0A}" else if c == 'r' then "\U{0D}" else if c == 't' then "\U{09}"
               else if c in "'\"\\" then [c] else ['\\', c]) + Unescape(rest)
  {
    if c != 'x' {
      var s := ['\\', c] + rest;
      assert s[0] == '\\' && s[1] == c && s[2..] == rest;
      NextReads(s, Next(s).out, rest);
    }
  }

  /** Two hexadecimal digits after `x` give the byte. */
  lemma HexEscapeIs(a: char, b: char, rest: string)
    requires IsHex(a) && IsHex(b)
    ensures Unescape(['\\', 'x', a, b] + rest) == [(16 * HexValue(a) + HexValue(b)) as char] + Unescape(rest)
  {
    var s := ['\\', 'x', a, b] + rest;
    assert s[0] == '\\' && s[1] == 'x' && s[2] == a && s[3] == b && s[4..] == rest;
    NextReads(s, Next(s).out, rest);
  }
}
