/** JSON texts (sections 2 to 7 of RFC 8259), described by how they are built. Numbers are any text of their
    characters, and any character may be escaped, so that a few texts more are included. */
module JsonSyntax {
  import opened JsonText

  /** A character of a string as written. */
  datatype Unit = Plain(c: char) | Escaped(c: char)

  /** A value with the space around it. */
  datatype Json = Json(before: string, core: Core, after: string)

  datatype Core =
    | Word(text: string)
    | Text(units: seq<Unit>)
    | List(gap: string, items: seq<Json>)
    | Object(gap: string, members: seq<Member>)

  datatype Member = Member(before: string, key: seq<Unit>, after: string, value: Json)

  // ----- what is JSON

  predicate IsGap(s: string) {
    forall i :: 0 <= i < |s| ==> s[i] == ' ' || s[i] == '\t' || s[i] == '\n' || s[i] == '\r'
  }

  predicate IsNumberChar(c: char) {
    '0' <= c <= '9' || c == '+' || c == '-' || c == '.' || c == 'e' || c == 'E'
  }

  predicate IsWord(s: string) {
    || s == "true" || s == "false" || s == "null"
    || (s != "" && forall i :: 0 <= i < |s| ==> IsNumberChar(s[i]))
  }

  predicate UnitsOk(us: seq<Unit>) {
    forall i :: 0 <= i < |us| && us[i].Plain? ==> us[i].c != '"' && us[i].c != '\\'
  }

  predicate JsonOk(j: Json)
    decreases j
  {
    && IsGap(j.before) && IsGap(j.after)
    && match j.core
       case Word(text) => IsWord(text)
       case Text(units) => UnitsOk(units)
       case List(gap, items) => IsGap(gap) && forall i :: 0 <= i < |items| ==> JsonOk(items[i])
       case Object(gap, members) => IsGap(gap) && forall i :: 0 <= i < |members| ==> MemberOk(members[i])
  }

  predicate MemberOk(m: Member)
    decreases m
  {
    IsGap(m.before) && UnitsOk(m.key) && IsGap(m.after) && JsonOk(m.value)
  }

  // ----- how it is written

  function PrintUnits(us: seq<Unit>): string {
    if us == [] then "" else (if us[0].Plain? then [us[0].c] else ['\\', us[0].c]) + PrintUnits(us[1..])
  }

  function PrintText(us: seq<Unit>): string {
    "\"" + PrintUnits(us) + "\""
  }

  function PrintJson(j: Json): string
    decreases j
  {
    j.before + PrintCore(j.core) + j.after
  }

  function PrintCore(c: Core): string
    decreases c
  {
    match c
    case Word(text) => text
    case Text(units) => PrintText(units)
    case List(gap, items) => "[" + (if items == [] then gap else PrintItems(items)) + "]"
    case Object(gap, members) => "{" + (if members == [] then gap else PrintMembers(members)) + "}"
  }

  function PrintItems(items: seq<Json>): string
    decreases items
  {
    if items == [] then ""
    else PrintJson(items[0]) + (if |items| > 1 then "," else "") + PrintItems(items[1..])
  }

  function PrintMembers(members: seq<Member>): string
    decreases members
  {
    if members == [] then ""
    else PrintMember(members[0]) + (if |members| > 1 then "," else "") + PrintMembers(members[1..])
  }

  function PrintMember(m: Member): string
    decreases m
  {
    m.before + PrintText(m.key) + m.after + ":" + PrintJson(m.value)
  }

  /** A byte order mark, in bytes or as a character, or none. */
  predicate IsMark(s: string) {
    s == "" || s == "\U{EF}\U{BB}\U{BF}" || s == "\U{FEFF}"
  }

  /** A JSON text that is not a string, as a parser that skips a byte order mark accepts it. */
  ghost predicate IsOtherJson(s: string) {
    exists mark: string, j: Json :: IsMark(mark) && IsJson(j) && mark + PrintJson(j) == s
  }

  predicate IsJson(j: Json) {
    JsonOk(j) && !j.core.Text?
  }

  // ----- the brace counter

  lemma BalancedConcat(a: string, b: string)
    requires Balanced(a) && Balanced(b)
    ensures Balanced(a + b)
  {
    forall d: int
      ensures ScanAll(Scan(d, false, false), a + b) == Scan(d, false, false)
    {
      ScanConcat(Scan(d, false, false), a, b);
    }
  }

  /** Characters that mean nothing to the counter. */
  predicate Inert(s: string) {
    forall i :: 0 <= i < |s| ==> s[i] != '"' && s[i] != '{' && s[i] != '}'
  }

  lemma {:induction false} ScanInert(s: string, d: int)
    requires Inert(s)
    ensures ScanAll(Scan(d, false, false), s) == Scan(d, false, false)
    decreases |s|
  {
    if s != "" {
      ScanInert(s[1..], d);
    }
  }

  lemma InertBalanced(s: string)
    requires Inert(s)
    ensures Balanced(s)
  {
    forall d: int
      ensures ScanAll(Scan(d, false, false), s) == Scan(d, false, false)
    {
      ScanInert(s, d);
    }
  }

  lemma {:induction false} ScanUnits(us: seq<Unit>, d: int)
    requires UnitsOk(us)
    ensures ScanAll(Scan(d, true, false), PrintUnits(us)) == Scan(d, true, false)
    decreases |us|
  {
    if us != [] {
      var st, u := Scan(d, true, false), if us[0].Plain? then [us[0].c] else ['\\', us[0].c];
      ScanConcat(st, u, PrintUnits(us[1..]));
      if us[0].Plain? {
        ScanOne(st, us[0].c);
      } else {
        ScanTwo(st, u);
      }
      ScanUnits(us[1..], d);
    }
  }

  lemma TextBalanced(us: seq<Unit>)
    requires UnitsOk(us)
    ensures Balanced(PrintText(us))
  {
    forall d: int
      ensures ScanAll(Scan(d, false, false), PrintText(us)) == Scan(d, false, false)
    {
      var st, inside := Scan(d, false, false), Scan(d, true, false);
      ScanConcat(st, "\"" + PrintUnits(us), "\"");
      ScanConcat(st, "\"", PrintUnits(us));
      ScanOne(st, '"');
      ScanUnits(us, d);
      ScanOne(inside, '"');
    }
  }

  lemma ScanBraces(s: string, d: int)
    requires Balanced(s)
    ensures ScanAll(Scan(d, false, false), "{" + s + "}") == Scan(d, false, false)
  {
    var st, inside := Scan(d, false, false), Scan(d + 1, false, false);
    ScanConcat(st, "{" + s, "}");
    ScanConcat(st, "{", s);
    ScanOne(st, '{');
    ScanOne(inside, '}');
    assert ScanAll(inside, s) == inside;
  }

  /** Braces around balanced text open and close. */
  lemma BracesBalanced(s: string)
    requires Balanced(s)
    ensures Balanced("{" + s + "}")
  {
    forall d: int
      ensures ScanAll(Scan(d, false, false), "{" + s + "}") == Scan(d, false, false)
    {
      ScanBraces(s, d);
    }
  }

  lemma {:induction false} JsonBalanced(j: Json)
    requires JsonOk(j)
    ensures Balanced(PrintJson(j))
    decreases j
  {
    InertBalanced(j.before);
    InertBalanced(j.after);
    CoreBalanced(j);
    BalancedConcat(j.before, PrintCore(j.core));
    BalancedConcat(j.before + PrintCore(j.core), j.after);
  }

  lemma {:induction false} CoreBalanced(j: Json)
    requires JsonOk(j)
    ensures Balanced(PrintCore(j.core))
    decreases j, 0
  {
    match j.core
    case Word(text) => InertBalanced(text);
    case Text(units) => TextBalanced(units);
    case List(gap, items) =>
      var inner := if items == [] then gap else PrintItems(items);
      InertBalanced(gap);
      ItemsBalanced(items);
      InertBalanced("[");
      InertBalanced("]");
      BalancedConcat("[", inner);
      BalancedConcat("[" + inner, "]");
    case Object(gap, members) =>
      InertBalanced(gap);
      MembersBalanced(members);
      BracesBalanced(if members == [] then gap else PrintMembers(members));
  }

  lemma {:induction false} ItemsBalanced(items: seq<Json>)
    requires forall i :: 0 <= i < |items| ==> JsonOk(items[i])
    ensures Balanced(PrintItems(items))
    decreases items
  {
    if items == [] {
      InertBalanced("");
    } else {
      var sep := if |items| > 1 then "," else "";
      JsonBalanced(items[0]);
      InertBalanced(sep);
      ItemsBalanced(items[1..]);
      BalancedConcat(PrintJson(items[0]), sep);
      BalancedConcat(PrintJson(items[0]) + sep, PrintItems(items[1..]));
    }
  }

  lemma {:induction false} MembersBalanced(members: seq<Member>)
    requires forall i :: 0 <= i < |members| ==> MemberOk(members[i])
    ensures Balanced(PrintMembers(members))
    decreases members
  {
    if members == [] {
      InertBalanced("");
    } else {
      var sep := if |members| > 1 then "," else "";
      MemberBalanced(members[0]);
      InertBalanced(sep);
      MembersBalanced(members[1..]);
      BalancedConcat(PrintMember(members[0]), sep);
      BalancedConcat(PrintMember(members[0]) + sep, PrintMembers(members[1..]));
    }
  }

  lemma {:induction false} MemberBalanced(m: Member)
    requires MemberOk(m)
    ensures Balanced(PrintMember(m))
    decreases m
  {
    InertBalanced(m.before);
    TextBalanced(m.key);
    InertBalanced(m.after);
    InertBalanced(":");
    JsonBalanced(m.value);
    BalancedConcat(m.before, PrintText(m.key));
    BalancedConcat(m.before + PrintText(m.key), m.after);
    BalancedConcat(m.before + PrintText(m.key) + m.after, ":");
    BalancedConcat(m.before + PrintText(m.key) + m.after + ":", PrintJson(m.value));
  }

  /** Every JSON text other than a string leaves the brace counter where it was. */
  lemma OtherJsonBalanced(s: string)
    requires IsOtherJson(s)
    ensures Balanced(s)
  {
    var mark: string, j: Json :| IsMark(mark) && IsJson(j) && mark + PrintJson(j) == s;
    InertBalanced(mark);
    JsonBalanced(j);
    BalancedConcat(mark, PrintJson(j));
  }

  lemma JsonHead(j: Json)
    requires IsJson(j)
    ensures PrintJson(j) != "" && PrintJson(j)[0] != '"'
  {
    var s, core := PrintJson(j), PrintCore(j.core);
    assert core != "" && core[0] != '"';
    if j.before == "" {
      assert s[0] == core[0];
    } else {
      assert s[0] == j.before[0];
    }
  }

  /** And it does not begin with a quote. */
  lemma OtherJsonHead(s: string)
    requires IsOtherJson(s)
    ensures s != "" && s[0] != '"'
  {
    var mark: string, j: Json :| IsMark(mark) && IsJson(j) && mark + PrintJson(j) == s;
    JsonHead(j);
    if mark == "" {
      assert s == PrintJson(j);
    } else {
      assert s[0] == mark[0];
    }
  }

  /** A number is one, for instance. */
  lemma NumberIsJson(s: string)
    requires IsWord(s)
    ensures IsOtherJson(s)
  {
    var j := Json("", Word(s), "");
    assert IsJson(j) && PrintJson(j) == "" + s + "" == s;
    assert IsMark("") && "" + PrintJson(j) == s;
  }
}
