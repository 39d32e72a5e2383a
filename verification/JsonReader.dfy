/** A reader of JSON strings and objects (sections 4 and 7 of RFC 8259), written apart from the printer. It takes
    the texts the printer writes, without space between a member's parts. */
module JsonReader {
  import opened Wrappers
  import opened JsonText
  import JsonSyntax
  import Hex

  // ----- strings

  /** The code unit that four hexadecimal digits give. */
  function FourHex(s: string): (r: Option<int>)
    requires |s| == 4
    ensures r.Some? ==> 0 <= r.value < 0x10000
  {
    if forall i :: 0 <= i < 4 ==> Hex.IsHex(s[i]) then
      Some(((Hex.HexValue(s[0]) * 16 + Hex.HexValue(s[1])) * 16 + Hex.HexValue(s[2])) * 16 + Hex.HexValue(s[3]))
    else None
  }

  /** What a two-character escape stands for. */
  function Short(c: char): Option<char> {
    match c
    case '"' => Some('"')
    case '\\' => Some('\\')
    case '/' => Some('/')
    case 'b' => Some('\U{08}')
    case 'f' => Some('\U{0C}')
    case 'n' => Some('\U{0A}')
    case 'r' => Some('\U{0D}')
    case 't' => Some('\U{09}')
    case _ => None
  }

  /** One character of a string and how many characters it is written with. Control characters must be escaped;
      halves of surrogate pairs are not read. */
  function ReadUnit(s: string): (r: Option<(char, nat)>)
    requires s != ""
    ensures r.Some? ==> 0 < r.value.1 <= |s|
  {
    if s[0] == '\\' then
      if |s| >= 6 && s[1] == 'u' then
        var code := FourHex(s[2..6]);
        if code.Some? && !(0xD800 <= code.value < 0xE000) then Some((code.value as char, 6)) else None
      else if |s| >= 2 && Short(s[1]).Some? then Some((Short(s[1]).value, 2))
      else None
    else if s[0] == '"' || s[0] as int < 0x20 then None
    else Some((s[0], 1))
  }

  /** The rest of a string up to its closing quote, and what follows. */
  function ReadInside(s: string): (r: Option<(string, string)>)
    ensures r.Some? ==> |r.value.1| < |s|
    decreases |s|
  {
    if s == "" then None
    else if s[0] == '"' then Some(("", s[1..]))
    else
      match ReadUnit(s)
      case None => None
      case Some((c, n)) =>
        match ReadInside(s[n..])
        case None => None
        case Some((text, rest)) => Some(([c] + text, rest))
  }

  function ReadString(s: string): (r: Option<(string, string)>)
    ensures r.Some? ==> |r.value.1| < |s|
  {
    if s == "" || s[0] != '"' then None else ReadInside(s[1..])
  }

  // ----- what the printer writes is read back

  lemma HexReads(n: nat)
    requires n < 16
    ensures Hex.IsHex(HexDigit(n)) && Hex.HexValue(HexDigit(n)) == n
  {
  }

  lemma ControlReads(c: char, rest: string)
    requires c as int < 0x20 && |EscapeChar(c)| == 6
    ensures ReadUnit(EscapeChar(c) + rest) == Some((c, 6))
  {
    HexReads(c as int / 16);
    HexReads(c as int % 16);
    var s := EscapeChar(c) + rest;
    var digits := s[2..6];
    assert digits == "00" + [HexDigit(c as int / 16), HexDigit(c as int % 16)];
    assert forall i :: 0 <= i < 4 ==> Hex.IsHex(digits[i]);
    assert FourHex(digits) == Some(c as int);
  }

  lemma CharReads(c: char, rest: string)
    ensures ReadUnit(EscapeChar(c) + rest) == Some((c, |EscapeChar(c)|))
    ensures EscapeChar(c)[0] != '"'
    ensures forall i :: 0 <= i < |EscapeChar(c)| ==> EscapeChar(c)[i] as int >= 0x20
  {
    var e := EscapeChar(c);
    if |e| == 6 {
      ControlReads(c, rest);
    } else if |e| == 2 {
      assert (e + rest)[0] == '\\' && (e + rest)[1] == e[1];
    } else {
      assert (e + rest)[0] == c;
    }
  }

  lemma {:induction false} EscapeReads(s: string, rest: string)
    ensures ReadInside(Escape(s) + "\"" + rest) == Some((s, rest))
    decreases |s|
  {
    if s == "" {
      assert (Escape(s) + "\"" + rest)[1..] == rest;
    } else {
      EscapeReads(s[1..], rest);
      UnitFirst(s[0], Escape(s[1..]) + "\"" + rest, s[1..], rest);
      FourParts(EscapeChar(s[0]), Escape(s[1..]), "\"", rest);
      assert [s[0]] + s[1..] == s;
    }
  }

  lemma FourParts(a: string, b: string, c: string, d: string)
    ensures a + b + c + d == a + (b + c + d)
  {
  }

  lemma UnitFirst(c: char, tail: string, text: string, rest: string)
    requires ReadInside(tail) == Some((text, rest))
    ensures ReadInside(EscapeChar(c) + tail) == Some(([c] + text, rest))
  {
    var e := EscapeChar(c);
    CharReads(c, tail);
    assert (e + tail)[0] == e[0] && (e + tail)[|e|..] == tail;
  }

  lemma OpensString(inside: string)
    ensures ReadString("\"" + inside) == ReadInside(inside)
  {
    assert ("\"" + inside)[1..] == inside;
  }

  /** Whatever follows it, a printed string is read back as the string it was printed for. */
  lemma QuoteReads(s: string, rest: string)
    ensures ReadString(Quote(s) + rest) == Some((s, rest))
  {
    EscapeReads(s, rest);
    FourParts("\"", Escape(s), "\"", rest);
    OpensString(Escape(s) + "\"" + rest);
  }

  lemma {:induction false} EscapeIsPrintable(s: string)
    ensures forall i :: 0 <= i < |Escape(s)| ==> Escape(s)[i] as int >= 0x20
    decreases |s|
  {
    if s != "" {
      CharReads(s[0], "");
      EscapeIsPrintable(s[1..]);
    }
  }

  /** And it holds no control character. */
  lemma QuoteIsPrintable(s: string)
    ensures forall i :: 0 <= i < |Quote(s)| ==> Quote(s)[i] as int >= 0x20
  {
    EscapeIsPrintable(s);
  }

  // ----- values and objects

  datatype Value = Str(text: string) | Verbatim(text: string)

  datatype Entry = Entry(key: string, value: Value)

  /** How deep in brackets, and whether in a string and behind a backslash. */
  datatype Nest = Nest(depth: nat, inString: bool, escaped: bool)

  function NestChar(st: Nest, c: char): Nest {
    if st.escaped then st.(escaped := false)
    else if st.inString then
      if c == '\\' then st.(escaped := true) else if c == '"' then st.(inString := false) else st
    else if c == '"' then st.(inString := true)
    else if c == '{' || c == '[' then st.(depth := st.depth + 1)
    else if (c == '}' || c == ']') && st.depth > 0 then st.(depth := st.depth - 1)
    else st
  }

  predicate Stops(st: Nest, c: char) {
    !st.inString && st.depth == 0 && (c == ',' || c == '}' || c == ']')
  }

  /** How far a value reaches: to the first comma or closing bracket that is not inside it. */
  function ValueLength(st: Nest, s: string): (n: nat)
    ensures n <= |s|
    decreases |s|
  {
    if s == "" || Stops(st, s[0]) then 0 else 1 + ValueLength(NestChar(st, s[0]), s[1..])
  }

  function ReadValue(s: string): (r: Option<(Value, string)>)
    ensures r.Some? ==> |r.value.1| <= |s|
  {
    if s != "" && s[0] == '"' then
      match ReadString(s)
      case None => None
      case Some((text, rest)) => Some((Str(text), rest))
    else
      var n := ValueLength(Nest(0, false, false), s);
      Some((Verbatim(s[..n]), s[n..]))
  }

  function ReadEntry(s: string): (r: Option<(Entry, string)>)
    ensures r.Some? ==> |r.value.1| < |s|
  {
    match ReadString(s)
    case None => None
    case Some((key, s1)) =>
      if s1 == "" || s1[0] != ':' then None
      else
        match ReadValue(s1[1..])
        case None => None
        case Some((value, rest)) => Some((Entry(key, value), rest))
  }

  function ReadEntries(s: string): Option<(seq<Entry>, string)>
    decreases |s|
  {
    match ReadEntry(s)
    case None => None
    case Some((entry, rest)) =>
      if rest == "" then None
      else if rest[0] == '}' then Some(([entry], rest[1..]))
      else if rest[0] != ',' then None
      else
        match ReadEntries(rest[1..])
        case None => None
        case Some((entries, after)) => Some(([entry] + entries, after))
  }

  /** The members of an object, in the order they are written, and what follows. */
  function ReadObject(s: string): Option<(seq<Entry>, string)> {
    if |s| >= 2 && s[0] == '{' && s[1] == '}' then Some(([], s[2..]))
    else if s != "" && s[0] == '{' then ReadEntries(s[1..])
    else None
  }

  // ----- values other than strings

  /** The value goes on behind the text, at that depth. */
  ghost predicate Passes(t: string, depth: nat) {
    forall rest: string ::
      ValueLength(Nest(depth, false, false), t + rest) == |t| + ValueLength(Nest(depth, false, false), rest)
  }

  lemma PassesConcat(a: string, b: string, depth: nat)
    requires Passes(a, depth) && Passes(b, depth)
    ensures Passes(a + b, depth)
  {
    var st := Nest(depth, false, false);
    forall rest: string
      ensures ValueLength(st, a + b + rest) == |a + b| + ValueLength(st, rest)
    {
      assert a + b + rest == a + (b + rest);
      assert ValueLength(st, a + (b + rest)) == |a| + ValueLength(st, b + rest);
    }
  }

  lemma LengthCons(st: Nest, c: char, s: string)
    ensures ValueLength(st, [c] + s) == if Stops(st, c) then 0 else 1 + ValueLength(NestChar(st, c), s)
  {
    assert ([c] + s)[1..] == s;
  }

  predicate Flat(s: string) {
    forall i :: 0 <= i < |s| ==> s[i] !in "\"{}[],"
  }

  lemma {:induction false} FlatLength(s: string, depth: nat, rest: string)
    requires Flat(s)
    ensures ValueLength(Nest(depth, false, false), s + rest) == |s| + ValueLength(Nest(depth, false, false), rest)
    decreases |s|
  {
    if s == "" {
      assert s + rest == rest;
    } else {
      assert s + rest == [s[0]] + (s[1..] + rest);
      LengthCons(Nest(depth, false, false), s[0], s[1..] + rest);
      FlatLength(s[1..], depth, rest);
    }
  }

  lemma FlatPasses(s: string, depth: nat)
    requires Flat(s)
    ensures Passes(s, depth)
  {
    forall rest: string
      ensures ValueLength(Nest(depth, false, false), s + rest) == |s| + ValueLength(Nest(depth, false, false), rest)
    {
      FlatLength(s, depth, rest);
    }
  }

  lemma CommaPasses(depth: nat)
    requires depth > 0
    ensures Passes(",", depth)
  {
    forall rest: string
      ensures ValueLength(Nest(depth, false, false), "," + rest) == 1 + ValueLength(Nest(depth, false, false), rest)
    {
      LengthCons(Nest(depth, false, false), ',', rest);
    }
  }

  /** A separator inside brackets, or none. */
  lemma SeparatorPasses(sep: string, depth: nat)
    requires depth > 0 && (sep == "" || sep == ",")
    ensures Passes(sep, depth)
  {
    if sep == "" {
      FlatPasses(sep, depth);
    } else {
      CommaPasses(depth);
    }
  }

  lemma {:induction false} UnitsLength(us: seq<JsonSyntax.Unit>, depth: nat, rest: string)
    requires JsonSyntax.UnitsOk(us)
    ensures ValueLength(Nest(depth, true, false), JsonSyntax.PrintUnits(us) + rest)
         == |JsonSyntax.PrintUnits(us)| + ValueLength(Nest(depth, true, false), rest)
    decreases |us|
  {
    var st := Nest(depth, true, false);
    if us == [] {
      assert "" + rest == rest;
    } else {
      var tail := JsonSyntax.PrintUnits(us[1..]) + rest;
      UnitsLength(us[1..], depth, rest);
      if us[0].Plain? {
        assert JsonSyntax.PrintUnits(us) + rest == [us[0].c] + tail;
        LengthCons(st, us[0].c, tail);
      } else {
        assert JsonSyntax.PrintUnits(us) + rest == ['\\'] + ([us[0].c] + tail);
        LengthCons(st, '\\', [us[0].c] + tail);
        LengthCons(NestChar(st, '\\'), us[0].c, tail);
      }
    }
  }

  lemma TextPasses(us: seq<JsonSyntax.Unit>, depth: nat)
    requires JsonSyntax.UnitsOk(us)
    ensures Passes(JsonSyntax.PrintText(us), depth)
  {
    var st, inside := Nest(depth, false, false), JsonSyntax.PrintUnits(us);
    forall rest: string
      ensures ValueLength(st, JsonSyntax.PrintText(us) + rest) == |JsonSyntax.PrintText(us)| + ValueLength(st, rest)
    {
      assert JsonSyntax.PrintText(us) + rest == ['"'] + (inside + (['"'] + rest));
      LengthCons(st, '"', inside + (['"'] + rest));
      UnitsLength(us, depth, ['"'] + rest);
      LengthCons(Nest(depth, true, false), '"', rest);
    }
  }

  /** Brackets around what goes on one level deeper. */
  lemma BracketsPass(open: char, t: string, close: char, depth: nat)
    requires (open == '{' && close == '}') || (open == '[' && close == ']')
    requires Passes(t, depth + 1)
    ensures Passes([open] + t + [close], depth)
  {
    var st, inside := Nest(depth, false, false), Nest(depth + 1, false, false);
    forall rest: string
      ensures ValueLength(st, [open] + t + [close] + rest) == |[open] + t + [close]| + ValueLength(st, rest)
    {
      assert [open] + t + [close] + rest == [open] + (t + ([close] + rest));
      LengthCons(st, open, t + ([close] + rest));
      assert ValueLength(inside, t + ([close] + rest)) == |t| + ValueLength(inside, [close] + rest);
      LengthCons(inside, close, rest);
    }
  }

  lemma {:induction false} JsonPasses(j: JsonSyntax.Json, depth: nat)
    requires JsonSyntax.JsonOk(j)
    ensures Passes(JsonSyntax.PrintJson(j), depth)
    decreases j
  {
    FlatPasses(j.before, depth);
    FlatPasses(j.after, depth);
    CorePasses(j, depth);
    PassesConcat(j.before, JsonSyntax.PrintCore(j.core), depth);
    PassesConcat(j.before + JsonSyntax.PrintCore(j.core), j.after, depth);
  }

  lemma {:induction false} CorePasses(j: JsonSyntax.Json, depth: nat)
    requires JsonSyntax.JsonOk(j)
    ensures Passes(JsonSyntax.PrintCore(j.core), depth)
    decreases j, 0
  {
    match j.core
    case Word(text) => WordPasses(text, depth);
    case Text(units) => TextPasses(units, depth);
    case List(gap, items) =>
      ItemsPass(items, depth + 1);
      ListPasses(gap, items, depth);
    case Object(gap, members) =>
      MembersPass(members, depth + 1);
      ObjectPasses(gap, members, depth);
  }

  lemma WordPasses(text: string, depth: nat)
    requires JsonSyntax.IsWord(text)
    ensures Passes(text, depth)
  {
    FlatPasses(text, depth);
  }

  lemma ListPasses(gap: string, items: seq<JsonSyntax.Json>, depth: nat)
    requires JsonSyntax.IsGap(gap) && Passes(JsonSyntax.PrintItems(items), depth + 1)
    ensures Passes(JsonSyntax.PrintCore(JsonSyntax.List(gap, items)), depth)
  {
    FlatPasses(gap, depth + 1);
    BracketsPass('[', if items == [] then gap else JsonSyntax.PrintItems(items), ']', depth);
  }

  lemma ObjectPasses(gap: string, members: seq<JsonSyntax.Member>, depth: nat)
    requires JsonSyntax.IsGap(gap) && Passes(JsonSyntax.PrintMembers(members), depth + 1)
    ensures Passes(JsonSyntax.PrintCore(JsonSyntax.Object(gap, members)), depth)
  {
    FlatPasses(gap, depth + 1);
    BracketsPass('{', if members == [] then gap else JsonSyntax.PrintMembers(members), '}', depth);
  }

  lemma {:induction false} ItemsPass(items: seq<JsonSyntax.Json>, depth: nat)
    requires depth > 0 && forall i :: 0 <= i < |items| ==> JsonSyntax.JsonOk(items[i])
    ensures Passes(JsonSyntax.PrintItems(items), depth)
    decreases items
  {
    if items == [] {
      FlatPasses("", depth);
    } else {
      var first, sep := JsonSyntax.PrintJson(items[0]), if |items| > 1 then "," else "";
      JsonPasses(items[0], depth);
      SeparatorPasses(sep, depth);
      ItemsPass(items[1..], depth);
      PassesConcat(first, sep, depth);
      PassesConcat(first + sep, JsonSyntax.PrintItems(items[1..]), depth);
    }
  }

  lemma {:induction false} MembersPass(members: seq<JsonSyntax.Member>, depth: nat)
    requires depth > 0 && forall i :: 0 <= i < |members| ==> JsonSyntax.MemberOk(members[i])
    ensures Passes(JsonSyntax.PrintMembers(members), depth)
    decreases members
  {
    if members == [] {
      FlatPasses("", depth);
    } else {
      var first, sep := JsonSyntax.PrintMember(members[0]), if |members| > 1 then "," else "";
      MemberPasses(members[0], depth);
      SeparatorPasses(sep, depth);
      MembersPass(members[1..], depth);
      PassesConcat(first, sep, depth);
      PassesConcat(first + sep, JsonSyntax.PrintMembers(members[1..]), depth);
    }
  }

  lemma {:induction false} MemberPasses(m: JsonSyntax.Member, depth: nat)
    requires JsonSyntax.MemberOk(m)
    ensures Passes(JsonSyntax.PrintMember(m), depth)
    decreases m
  {
    var key := JsonSyntax.PrintText(m.key);
    FlatPasses(m.before, depth);
    TextPasses(m.key, depth);
    FlatPasses(m.after, depth);
    FlatPasses(":", depth);
    JsonPasses(m.value, depth);
    PassesConcat(m.before, key, depth);
    PassesConcat(m.before + key, m.after, depth);
    PassesConcat(m.before + key + m.after, ":", depth);
    PassesConcat(m.before + key + m.after + ":", JsonSyntax.PrintJson(m.value), depth);
  }

  // ----- printed values are read back

  /** In front of a comma or a closing brace the text is read as that value, whole. */
  ghost predicate ReadsAs(t: string, v: Value) {
    forall rest: string :: rest != "" && (rest[0] == ',' || rest[0] == '}') ==> ReadValue(t + rest) == Some((v, rest))
  }

  lemma QuoteReadsAs(s: string)
    ensures ReadsAs(Quote(s), Str(s))
  {
    forall rest: string | rest != "" && (rest[0] == ',' || rest[0] == '}')
      ensures ReadValue(Quote(s) + rest) == Some((Str(s), rest))
    {
      QuoteReads(s, rest);
    }
  }

  lemma PassingReadsAs(t: string)
    requires Passes(t, 0) && (t != "" ==> t[0] != '"')
    ensures ReadsAs(t, Verbatim(t))
  {
    var st := Nest(0, false, false);
    forall rest: string | rest != "" && (rest[0] == ',' || rest[0] == '}')
      ensures ReadValue(t + rest) == Some((Verbatim(t), rest))
    {
      assert ValueLength(st, t + rest) == |t| + ValueLength(st, rest) == |t|;
      assert (t + rest)[..|t|] == t && (t + rest)[|t|..] == rest;
      assert (t + rest)[0] == if t == "" then rest[0] else t[0];
    }
  }

  /** Every JSON text other than a string is read as it stands. */
  lemma OtherJsonReadsAs(t: string)
    requires JsonSyntax.IsOtherJson(t)
    ensures ReadsAs(t, Verbatim(t))
  {
    var mark: string, j: JsonSyntax.Json :|
      JsonSyntax.IsMark(mark) && JsonSyntax.IsJson(j) && mark + JsonSyntax.PrintJson(j) == t;
    FlatPasses(mark, 0);
    JsonPasses(j, 0);
    PassesConcat(mark, JsonSyntax.PrintJson(j), 0);
    JsonSyntax.OtherJsonHead(t);
    PassingReadsAs(t);
  }

  lemma NothingReadsAs()
    ensures ReadsAs("", Verbatim(""))
  {
    FlatPasses("", 0);
    PassingReadsAs("");
  }
}
