/** The comma-separated row parser of the command line (common/arg.cpp; section 2 of RFC 4180). */
module CsvRow {

  // ----- parsing

  /** The fields of the rest of a row, when `field` has been read of the current one. */
  function Row(s: string, field: string, inQuotes: bool): (r: seq<string>)
    ensures r != []
    decreases |s|
  {
    if s == "" then [field]
    else if s[0] == '\"' then
      if !inQuotes then
        if field != "" then Row(s[1..], field + "\"", false) else Row(s[1..], field, true)
      else if |s| > 1 && s[1] == '\"' then Row(s[2..], field + "\"", true)
      else Row(s[1..], field, false)
    else if s[0] == ',' && !inQuotes then [field] + Row(s[1..], "", false)
    else Row(s[1..], field + [s[0]], inQuotes)
  }

  lemma RowComma(done: seq<string>, s: string, i: nat, field: string)
    requires i < |s| && s[i] == ','
    ensures done + Row(s[i..], field, false) == done + [field] + Row(s[i + 1..], "", false)
  {
    assert s[i..][1..] == s[i + 1..];
  }

  /** The loop as written. */
  method ParseCsvRow(input: string) returns (fields: seq<string>)
    ensures fields == Row(input, "", false)
  {
    fields := [];
    var field, inQuotes, i := "", false, 0;
    assert input[0..] == input;
    while i < |input|
      invariant i <= |input|
      invariant fields + Row(input[i..], field, inQuotes) == Row(input, "", false)
    {
      var ch := input[i];
      assert input[i..][0] == ch && input[i..][1..] == input[i + 1..];
      if ch == '\"' {
        if !inQuotes {
          if field != "" {
            field := field + "\"";
          } else {
            inQuotes := true;
          }
        } else if i + 1 < |input| && input[i + 1] == '\"' {
          assert input[i..][2..] == input[i + 2..];
          field := field + "\"";
          i := i + 1;
        } else {
          inQuotes := false;
        }
      } else if ch == ',' {
        if inQuotes {
          field := field + ",";
        } else {
          RowComma(fields, input, i, field);
          fields := fields + [field];
          field := "";
        }
      } else {
        field := field + [ch];
      }
      i := i + 1;
    }
    fields := fields + [field];
  }

  // ----- printing

  /** A field to print, quoted or bare. */
  datatype Cell = Cell(value: string, quoted: bool)

  /** Bare fields have no comma and do not start with a quote. */
  predicate Printable(c: Cell) {
    c.quoted || (',' !in c.value && (c.value == "" || c.value[0] != '\"'))
  }

  function Doubled(s: string): string
    decreases |s|
  {
    if s == "" then "" else (if s[0] == '\"' then "\"\"" else [s[0]]) + Doubled(s[1..])
  }

  function PrintCell(c: Cell): string {
    if c.quoted then "\"" + Doubled(c.value) + "\"" else c.value
  }

  function PrintRow(cs: seq<Cell>): string
    requires cs != []
  {
    if |cs| == 1 then PrintCell(cs[0]) else PrintCell(cs[0]) + "," + PrintRow(cs[1..])
  }

  function Values(cs: seq<Cell>): seq<string> {
    if cs == [] then [] else [cs[0].value] + Values(cs[1..])
  }

  /** The rest of a row after a field: nothing, or a comma and more. */
  predicate AfterField(rest: string) {
    rest == "" || rest[0] == ','
  }

  lemma {:induction false} ReadQuoted(value: string, rest: string, field: string)
    requires AfterField(rest)
    ensures Row(Doubled(value) + "\"" + rest, field, true) == Row(rest, field + value, false)
    decreases |value|
  {
    var s := Doubled(value) + "\"" + rest;
    if value == "" {
      assert s == "\"" + rest;
      assert s[1..] == rest;
      assert field + value == field;
    } else {
      var c := value[0];
      var next := Doubled(value[1..]) + "\"" + rest;
      ReadQuoted(value[1..], rest, field + [c]);
      assert field + [c] + value[1..] == field + value;
      if c == '\"' {
        Front("\"\"", Doubled(value[1..]), "\"", rest);
        assert s == "\"\"" + next;
        assert s[0] == '\"' && s[1] == '\"' && s[2..] == next;
      } else {
        Front([c], Doubled(value[1..]), "\"", rest);
        assert s == [c] + next;
        assert s[0] == c && s[1..] == next;
      }
    }
  }

  lemma Front(x: string, a: string, b: string, c: string)
    ensures x + a + b + c == x + (a + b + c)
  {
  }

  lemma {:induction false} ReadBare(value: string, rest: string, field: string)
    requires AfterField(rest) && ',' !in value && (field != "" || value == "" || value[0] != '\"')
    ensures Row(value + rest, field, false) == Row(rest, field + value, false)
    decreases |value|
  {
    if value == "" {
      assert value + rest == rest && field + value == field;
    } else {
      var s := value + rest;
      assert s[0] == value[0] && s[1..] == value[1..] + rest;
      ReadBare(value[1..], rest, field + [value[0]]);
      assert field + [value[0]] + value[1..] == field + value;
    }
  }

  lemma ReadCell(c: Cell, rest: string)
    requires Printable(c) && AfterField(rest)
    ensures Row(PrintCell(c) + rest, "", false) == Row(rest, c.value, false)
  {
    assert "" + c.value == c.value;
    if c.quoted {
      var s := PrintCell(c) + rest;
      Front("\"", Doubled(c.value), "\"", rest);
      assert s[0] == '\"' && s[1..] == Doubled(c.value) + "\"" + rest;
      ReadQuoted(c.value, rest, "");
    } else {
      ReadBare(c.value, rest, "");
    }
  }

  /** Round trip: every non-empty list of fields, each printed quoted or, where that is safe, bare, is
      read back. */
  lemma {:induction false} ParseUndoesPrint(cs: seq<Cell>)
    requires cs != [] && forall c :: c in cs ==> Printable(c)
    ensures Row(PrintRow(cs), "", false) == Values(cs)
    decreases |cs|
  {
    assert cs[0] in cs;
    if |cs| == 1 {
      ReadCell(cs[0], "");
      assert PrintCell(cs[0]) + "" == PrintCell(cs[0]);
      assert Row("", cs[0].value, false) == [cs[0].value];
      assert cs[1..] == [];
      assert Values(cs) == [cs[0].value] + [];
    } else {
      var rest := "," + PrintRow(cs[1..]);
      assert PrintRow(cs) == PrintCell(cs[0]) + rest;
      ReadCell(cs[0], rest);
      assert rest[0] == ',' && rest[1..] == PrintRow(cs[1..]);
      ParseUndoesPrint(cs[1..]);
    }
  }

  // ----- why a bare field must not have a comma or start with a quote

  function Size(fs: seq<string>): nat {
    if fs == [] then 0 else |fs[0]| + 1 + Size(fs[1..])
  }

  /** Fields and the commas between them never take more room than the row. */
  lemma {:induction false} RowSize(s: string, field: string, inQuotes: bool)
    ensures Size(Row(s, field, inQuotes)) <= |field| + |s| + 1
    decreases |s|
  {
    if s == "" {
      assert [field][1..] == [];
    } else if s[0] == '\"' {
      if !inQuotes {
        if field != "" {
          RowSize(s[1..], field + "\"", false);
        } else {
          RowSize(s[1..], field, true);
        }
      } else if |s| > 1 && s[1] == '\"' {
        RowSize(s[2..], field + "\"", true);
      } else {
        RowSize(s[1..], field, false);
      }
    } else if s[0] == ',' && !inQuotes {
      RowSize(s[1..], "", false);
      var r := Row(s[1..], "", false);
      assert ([field] + r)[1..] == r;
    } else {
      RowSize(s[1..], field + [s[0]], inQuotes);
    }
  }

  lemma {:induction false} CommaSplits(s: string, field: string)
    requires ',' in s && (field != "" || s[0] != '\"')
    ensures |Row(s, field, false)| > 1
    decreases |s|
  {
    if s[0] != ',' {
      CommaSplits(s[1..], field + [s[0]]);
    }
  }

  /** A single bare field is read back exactly when it is printable. */
  lemma BareFieldIff(v: string)
    ensures Row(v, "", false) == [v] <==> Printable(Cell(v, false))
  {
    if Printable(Cell(v, false)) {
      ParseUndoesPrint([Cell(v, false)]);
      assert [Cell(v, false)][1..] == [];
    } else if v[0] == '\"' {
      RowSize(v[1..], "", true);
      assert Size([v]) == |v| + 1 by { assert [v][1..] == []; }
    } else {
      CommaSplits(v, "");
    }
  }
}
