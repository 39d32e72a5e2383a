/** Text helpers of the chat mapper (common/chat-peg-parser.cpp): trimming, JSON string escaping and
    the brace counter. */
module JsonText {

  // ----- trimming

  predicate IsSpace(c: char) {
    c == ' ' || '\t' <= c <= '\r'
  }

  /** Drops leading space: at most `max` characters, or all of them when `max` is -1. */
  function TrimLeading(s: string, max: int): (r: string)
    requires max >= -1
    decreases |s|
  {
    if s == "" || !IsSpace(s[0]) || max == 0 then s
    else TrimLeading(s[1..], if max == -1 then -1 else max - 1)
  }

  function TrimTrailing(s: string, max: int): (r: string)
    requires max >= -1
    ensures r <= s
    decreases |s|
  {
    if s == "" || !IsSpace(s[|s| - 1]) || max == 0 then s
    else TrimTrailing(s[..|s| - 1], if max == -1 then -1 else max - 1)
  }

  method TrimLeadingSpace(s: string, max: int) returns (r: string)
    requires max >= -1
    ensures r == TrimLeading(s, max)
  {
    r := s;
    var count := 0;
    while r != "" && IsSpace(r[0])
      invariant count >= 0 && (max != -1 ==> count <= max)
      invariant TrimLeading(r, if max == -1 then -1 else max - count) == TrimLeading(s, max)
      decreases |r|
    {
      if max != -1 && count >= max {
        break;
      }
      r := r[1..];
      count := count + 1;
    }
  }

  method TrimTrailingSpace(s: string, max: int) returns (r: string)
    requires max >= -1
    ensures r == TrimTrailing(s, max)
  {
    r := s;
    var count := 0;
    while r != "" && IsSpace(r[|r| - 1])
      invariant count >= 0 && (max != -1 ==> count <= max)
      invariant TrimTrailing(r, if max == -1 then -1 else max - count) == TrimTrailing(s, max)
      decreases |r|
    {
      if max != -1 && count >= max {
        break;
      }
      r := r[..|r| - 1];
      count := count + 1;
    }
  }

  /** A key: at most one leading space, all trailing space. */
  function TrimKey(s: string): string {
    TrimTrailing(TrimLeading(s, 1), -1)
  }

  /** A value: at most one space on either side. */
  function TrimValue(s: string): string {
    TrimTrailing(TrimLeading(s, 1), 1)
  }

  lemma TrimLeadingOne(s: string)
    ensures TrimLeading(s, 1) == if s != "" && IsSpace(s[0]) then s[1..] else s
  {
    if s != "" && IsSpace(s[0]) {
      assert TrimLeading(s[1..], 0) == s[1..];
    }
  }

  lemma TrimTrailingOne(s: string)
    ensures TrimTrailing(s, 1) == if s != "" && IsSpace(s[|s| - 1]) then s[..|s| - 1] else s
  {
    if s != "" && IsSpace(s[|s| - 1]) {
      assert TrimTrailing(s[..|s| - 1], 0) == s[..|s| - 1];
    }
  }

  /** Trimming everything keeps the longest prefix that does not end in space. */
  lemma {:induction false} TrimTrailingAll(s: string)
    ensures var r := TrimTrailing(s, -1);
            && (r != "" ==> !IsSpace(r[|r| - 1]))
            && forall i :: |r| <= i < |s| ==> IsSpace(s[i])
    decreases |s|
  {
    if s != "" && IsSpace(s[|s| - 1]) {
      TrimTrailingAll(s[..|s| - 1]);
      var r := TrimTrailing(s, -1);
      forall i | |r| <= i < |s|
        ensures IsSpace(s[i])
      {
        if i < |s| - 1 {
          assert s[..|s| - 1][i] == s[i];
        }
      }
    }
  }

  /** A key is the text without its first character if that is a space, and without any space at its end. */
  lemma TrimKeyIs(s: string)
    ensures var k, a := TrimKey(s), if s != "" && s[0] in " \t\n\U{0B}\U{0C}\r" then 1 else 0;
            && a + |k| <= |s| && k == s[a..a + |k|]
            && (k != "" ==> k[|k| - 1] !in " \t\n\U{0B}\U{0C}\r")
            && forall i :: a + |k| <= i < |s| ==> s[i] in " \t\n\U{0B}\U{0C}\r"
  {
    var t, a := TrimLeading(s, 1), if s != "" && IsSpace(s[0]) then 1 else 0;
    TrimLeadingOne(s);
    TrimTrailingAll(t);
    assert t == s[a..];
    forall i | a + |TrimKey(s)| <= i < |s|
      ensures IsSpace(s[i])
    {
      assert t[i - a] == s[i];
    }
  }

  /** A value is the text without its first and its last character, as far as they are space. */
  lemma TrimValueIs(s: string)
    ensures var a := if s != "" && s[0] in " \t\n\U{0B}\U{0C}\r" then 1 else 0;
            var b := if |s| > a && s[|s| - 1] in " \t\n\U{0B}\U{0C}\r" then 1 else 0;
            TrimValue(s) == s[a..|s| - b]
  {
    TrimLeadingOne(s);
    TrimTrailingOne(TrimLeading(s, 1));
  }

  /** The value rule is monotone: cutting one space on either side never has to be taken back. */
  lemma TrimValueMonotone(x: string, y: string)
    requires x <= y
    ensures TrimValue(x) <= TrimValue(y)
  {
    TrimLeadingOne(x);
    TrimLeadingOne(y);
    TrimTrailingOne(TrimLeading(x, 1));
    TrimTrailingOne(TrimLeading(y, 1));
  }

  lemma TrimTrailingAllMonotone(x: string, y: string)
    requires x <= y
    ensures TrimTrailing(x, -1) <= TrimTrailing(y, -1)
  {
    TrimTrailingAll(x);
    TrimTrailingAll(y);
    var rx, ry := TrimTrailing(x, -1), TrimTrailing(y, -1);
    if rx != "" {
      assert y[|rx| - 1] == rx[|rx| - 1] && !IsSpace(y[|rx| - 1]);
    }
  }

  // ----- escaping (section 7 of RFC 8259, as nlohmann::json prints it)

  function HexDigit(n: nat): char
    requires n < 16
  {
    if n < 10 then '0' + n as char else 'a' + (n - 10) as char
  }

  function EscapeChar(c: char): (r: string)
    ensures r != ""
  {
    if c == '"' then "\\\""
    else if c == '\\' then "\\\\"
    else if c as int == 0x08 then "\\b"
    else if c as int == 0x0C then "\\f"
    else if c == '\n' then "\\n"
    else if c == '\r' then "\\r"
    else if c == '\t' then "\\t"
    else if c as int < 0x20 then "\\u00" + [HexDigit(c as int / 16), HexDigit(c as int % 16)]
    else [c]
  }

  /** The inside of the JSON string for `s`, without the surrounding quotes. */
  function Escape(s: string): string
    decreases |s|
  {
    if s == "" then "" else EscapeChar(s[0]) + Escape(s[1..])
  }

  function Quote(s: string): string {
    "\"" + Escape(s) + "\""
  }

  lemma {:induction false} EscapeConcat(a: string, b: string)
    ensures Escape(a + b) == Escape(a) + Escape(b)
    decreases |a|
  {
    if a == "" {
      assert a + b == b;
    } else {
      assert (a + b)[0] == a[0] && (a + b)[1..] == a[1..] + b;
      EscapeConcat(a[1..], b);
    }
  }

  lemma EscapeMonotone(x: string, y: string)
    requires x <= y
    ensures Escape(x) <= Escape(y)
  {
    EscapeConcat(x, y[|x|..]);
    assert x + y[|x|..] == y;
  }

  lemma SameHead(cs: string, a: string, ds: string, b: string, i: nat)
    requires cs + a <= ds + b && i < |cs| && i < |ds|
    ensures cs[i] == ds[i]
  {
    assert (cs + a)[i] == (ds + b)[i];
  }

  /** Escapes form a prefix code. */
  lemma EscapeCharPrefixFree(c: char, d: char, a: string, b: string)
    requires EscapeChar(c) + a <= EscapeChar(d) + b
    ensures c == d
  {
    var cs, ds := EscapeChar(c), EscapeChar(d);
    SameHead(cs, a, ds, b, 0);
    if |cs| >= 2 && |ds| >= 2 {
      SameHead(cs, a, ds, b, 1);
      if |cs| == 6 && |ds| == 6 {
        SameHead(cs, a, ds, b, 4);
        SameHead(cs, a, ds, b, 5);
      }
    }
    EscapeCharDistinct(c, d);
  }

  lemma EscapeCharDistinct(c: char, d: char)
    requires var cs, ds := EscapeChar(c), EscapeChar(d);
             && cs[0] == ds[0]
             && (|cs| >= 2 && |ds| >= 2 ==> cs[1] == ds[1])
             && (|cs| == 6 && |ds| == 6 ==> cs[4] == ds[4] && cs[5] == ds[5])
    ensures c == d
  {
  }

  /** Escaping loses nothing, not even about prefixes. */
  lemma {:induction false} EscapePrefixIff(x: string, y: string)
    ensures Escape(x) <= Escape(y) <==> x <= y
    decreases |x|
  {
    if x == "" {
    } else if y == "" {
      assert Escape(x) != "";
    } else if x[0] == y[0] {
      var e := EscapeChar(x[0]);
      EscapePrefixIff(x[1..], y[1..]);
      PrefixCancel(e, Escape(x[1..]), Escape(y[1..]));
      PrefixCancel([x[0]], x[1..], y[1..]);
      assert x == [x[0]] + x[1..] && y == [y[0]] + y[1..];
    } else if Escape(x) <= Escape(y) {
      EscapeCharPrefixFree(x[0], y[0], Escape(x[1..]), Escape(y[1..]));
    }
  }

  lemma PrefixCancel(a: string, b: string, c: string)
    ensures a + b <= a + c <==> b <= c
  {
    if a + b <= a + c {
      assert b == (a + b)[|a|..] && c == (a + c)[|a|..];
      assert (a + c)[..|a + b|][|a|..] == c[..|b|];
    }
  }

  // ----- braces

  datatype Scan = Scan(depth: int, inString: bool, escaped: bool)

  function ScanChar(st: Scan, c: char): Scan {
    if st.escaped then st.(escaped := false)
    else if c == '\\' && st.inString then st.(escaped := true)
    else if c == '"' then st.(inString := !st.inString)
    else if !st.inString && c == '{' then st.(depth := st.depth + 1)
    else if !st.inString && c == '}' then st.(depth := st.depth - 1)
    else st
  }

  function ScanAll(st: Scan, s: string): Scan
    decreases |s|
  {
    if s == "" then st else ScanAll(ScanChar(st, s[0]), s[1..])
  }

  function BraceDepth(s: string): int {
    ScanAll(Scan(0, false, false), s).depth
  }

  method JsonBraceDepth(s: string) returns (depth: int)
    ensures depth == BraceDepth(s)
  {
    depth := 0;
    var inString, escaped := false, false;
    var i := 0;
    assert s[0..] == s;
    while i < |s|
      invariant i <= |s|
      invariant ScanAll(Scan(depth, inString, escaped), s[i..]) == ScanAll(Scan(0, false, false), s)
    {
      var c := s[i];
      assert s[i..][0] == c && s[i..][1..] == s[i + 1..];
      i := i + 1;
      if escaped {
        escaped := false;
        continue;
      }
      if c == '\\' && inString {
        escaped := true;
        continue;
      }
      if c == '"' {
        inString := !inString;
        continue;
      }
      if !inString {
        if c == '{' {
          depth := depth + 1;
        } else if c == '}' {
          depth := depth - 1;
        }
      }
    }
  }

  lemma {:induction false} ScanConcat(st: Scan, a: string, b: string)
    ensures ScanAll(st, a + b) == ScanAll(ScanAll(st, a), b)
    decreases |a|
  {
    if a == "" {
      assert a + b == b;
    } else {
      assert (a + b)[0] == a[0] && (a + b)[1..] == a[1..] + b;
      ScanConcat(ScanChar(st, a[0]), a[1..], b);
    }
  }

  lemma ScanEscapedChar(depth: int, c: char)
    ensures ScanAll(Scan(depth, true, false), EscapeChar(c)) == Scan(depth, true, false)
  {
    var st := Scan(depth, true, false);
    var e := EscapeChar(c);
    if |e| == 1 {
      assert e[1..] == "";
    } else if |e| == 2 {
      ScanTwo(st, e);
    } else {
      assert e == e[..2] + e[2..4] + e[4..];
      assert |e| == 6;
      ScanConcat(st, e[..2] + e[2..4], e[4..]);
      ScanConcat(st, e[..2], e[2..4]);
      ScanTwo(st, e[..2]);
      ScanTwo(st, e[2..4]);
      ScanTwo(st, e[4..]);
    }
  }

  lemma ScanTwo(st: Scan, e: string)
    requires |e| == 2
    ensures ScanAll(st, e) == ScanChar(ScanChar(st, e[0]), e[1])
  {
    assert e[1..] == [e[1]];
    assert e[1..][1..] == "";
    assert ScanAll(ScanChar(st, e[0]), e[1..]) == ScanChar(ScanChar(st, e[0]), e[1]);
  }

  /** Inside a string, escaped text moves neither the brace counter nor the string flag. */
  lemma {:induction false} ScanEscaped(depth: int, s: string)
    ensures ScanAll(Scan(depth, true, false), Escape(s)) == Scan(depth, true, false)
    decreases |s|
  {
    if s != "" {
      ScanConcat(Scan(depth, true, false), EscapeChar(s[0]), Escape(s[1..]));
      ScanEscapedChar(depth, s[0]);
      ScanEscaped(depth, s[1..]);
    }
  }

  /** A printed string is neutral for the brace counter. */
  lemma ScanQuoted(depth: int, s: string)
    ensures ScanAll(Scan(depth, false, false), Quote(s)) == Scan(depth, false, false)
  {
    var st := Scan(depth, false, false);
    ScanConcat(st, "\"" + Escape(s), "\"");
    ScanConcat(st, "\"", Escape(s));
    ScanOne(st, '"');
    ScanEscaped(depth, s);
    ScanOne(Scan(depth, true, false), '"');
  }

  lemma ScanOne(st: Scan, c: char)
    ensures ScanAll(st, [c]) == ScanChar(st, c)
  {
    assert [c][1..] == "";
  }

  /** Text that leaves the counter where it was, wherever it stands between strings. */
  ghost predicate Balanced(s: string) {
    forall d: int :: ScanAll(Scan(d, false, false), s) == Scan(d, false, false)
  }
}
