/** Splitting text into markers (`<...>`, `[...]`) and the text between them
    (common/chat-auto-parser-helpers.cpp). */
module Segments {

  datatype Kind = Text | Marker

  datatype Segment = Segment(kind: Kind, value: string)

  predicate IsOpener(c: char) {
    c == '<' || c == '['
  }

  predicate IsCloser(opener: char, c: char) {
    (opener == '<' && c == '>') || (opener == '[' && c == ']')
  }

  /** What is looked for: an opener, or the closer of an opener. */
  datatype Goal = AnyOpener | CloserOf(opener: char)

  predicate Meets(g: Goal, c: char) {
    match g
    case AnyOpener => IsOpener(c)
    case CloserOf(opener) => IsCloser(opener, c)
  }

  /** Index of the first character of `s` at or after `from` that meets the goal, or the length. */
  function Find(s: string, g: Goal, from: nat): (r: nat)
    requires from <= |s|
    ensures from <= r <= |s|
    ensures forall i :: from <= i < r ==> !Meets(g, s[i])
    ensures r < |s| ==> Meets(g, s[r])
    decreases |s| - from
  {
    if from == |s| || Meets(g, s[from]) then from else Find(s, g, from + 1)
  }

  lemma FindIs(s: string, g: Goal, from: nat, r: nat)
    requires from <= r <= |s|
    requires forall i :: from <= i < r ==> !Meets(g, s[i])
    requires r < |s| ==> Meets(g, s[r])
    ensures Find(s, g, from) == r
  {
    var f := Find(s, g, from);
    assert f < |s| ==> Meets(g, s[f]);
    assert r < |s| ==> Meets(g, s[r]);
  }

  /** The segments of `text` from `at` on: a marker runs from an opener to the first matching closer, text
      runs up to the next opener, and an opener that is never closed makes the rest text. */
  function SegmentsFrom(text: string, at: nat): seq<Segment>
    requires at <= |text|
    decreases |text| - at
  {
    if at == |text| then []
    else if IsOpener(text[at]) then
      var end := Find(text, CloserOf(text[at]), at);
      if end == |text| then [Segment(Text, text[at..])]
      else [Segment(Marker, text[at..end + 1])] + SegmentsFrom(text, end + 1)
    else
      var end := Find(text, AnyOpener, at);
      [Segment(Text, text[at..end])] + SegmentsFrom(text, end)
  }

  function SegmentsOf(text: string): seq<Segment> {
    SegmentsFrom(text, 0)
  }

  function Join(segs: seq<Segment>): string {
    if segs == [] then "" else segs[0].value + Join(segs[1..])
  }

  lemma {:induction false} JoinConcat(a: seq<Segment>, b: seq<Segment>)
    ensures Join(a + b) == Join(a) + Join(b)
    decreases |a|
  {
    if a == [] {
      assert a + b == b;
    } else {
      assert (a + b)[0] == a[0] && (a + b)[1..] == a[1..] + b;
      JoinConcat(a[1..], b);
    }
  }

  lemma JoinOne(x: Segment)
    ensures Join([x]) == x.value
  {
    assert [x][1..] == [];
    assert x.value + "" == x.value;
  }

  /** Segmenting loses nothing and never produces an empty segment. */
  lemma {:induction false} SegmentsLossless(text: string, at: nat)
    requires at <= |text|
    ensures Join(SegmentsFrom(text, at)) == text[at..]
    ensures forall g :: g in SegmentsFrom(text, at) ==> g.value != ""
    ensures SegmentsFrom(text, at) == [] <==> at == |text|
    decreases |text| - at
  {
    if at < |text| {
      if IsOpener(text[at]) {
        var end := Find(text, CloserOf(text[at]), at);
        if end == |text| {
          JoinOne(Segment(Text, text[at..]));
        } else {
          SegmentsLossless(text, end + 1);
          assert text[at..end + 1] + text[end + 1..] == text[at..];
        }
      } else {
        var end := Find(text, AnyOpener, at);
        SegmentsLossless(text, end);
        assert text[at..end] + text[end..] == text[at..];
      }
    }
  }

  /** From an opener to the first matching closer. */
  predicate IsMarker(v: string) {
    && |v| >= 2 && ((v[0] == '<' && v[|v| - 1] == '>') || (v[0] == '[' && v[|v| - 1] == ']'))
    && forall i :: 0 <= i < |v| - 1 ==> v[i] != v[|v| - 1]
  }

  predicate IsPlain(v: string) {
    v != "" && forall i :: 0 <= i < |v| ==> v[i] !in "<["
  }

  predicate IsUnclosed(v: string) {
    && v != "" && ((v[0] == '<' && '>' !in v) || (v[0] == '[' && ']' !in v))
  }

  /** Markers and plain text, with no two plain texts in a row, and perhaps an unclosed marker at the end. */
  predicate WellShaped(segs: seq<Segment>) {
    segs == [] ||
    (&& (if segs[0].kind.Marker? then IsMarker(segs[0].value)
         else if IsPlain(segs[0].value) then segs[1..] != [] ==> !IsPlain(segs[1].value)
         else IsUnclosed(segs[0].value) && segs[1..] == [])
     && WellShaped(segs[1..]))
  }

  lemma NotCloser(text: string, at: nat, end: nat)
    requires at < |text| && IsOpener(text[at]) && end <= |text|
    requires forall i :: at <= i < end ==> !Meets(CloserOf(text[at]), text[i])
    ensures forall i :: at <= i < end ==> text[i] != if text[at] == '<' then '>' else ']'
  {
    forall i | at <= i < end
      ensures text[i] != if text[at] == '<' then '>' else ']'
    {
      assert !Meets(CloserOf(text[at]), text[i]);
    }
  }

  lemma MarkerFrom(text: string, at: nat, end: nat)
    requires at < end < |text| && IsOpener(text[at])
    requires forall i :: at <= i < end ==> text[i] != if text[at] == '<' then '>' else ']'
    requires text[end] == if text[at] == '<' then '>' else ']'
    ensures IsMarker(text[at..end + 1])
  {
    var v := text[at..end + 1];
    assert v[0] == text[at] && v[|v| - 1] == text[end];
  }

  lemma ClosedIsMarker(text: string, at: nat, end: nat)
    requires at < |text| && IsOpener(text[at]) && end == Find(text, CloserOf(text[at]), at) && end < |text|
    ensures at < end && IsMarker(text[at..end + 1])
  {
    assert Meets(CloserOf(text[at]), text[end]);
    NotCloser(text, at, end);
    MarkerFrom(text, at, end);
  }

  lemma UnclosedShape(text: string, at: nat)
    requires at < |text| && IsOpener(text[at]) && Find(text, CloserOf(text[at]), at) == |text|
    ensures IsUnclosed(text[at..]) && !IsPlain(text[at..])
  {
    NotCloser(text, at, |text|);
    assert text[at..][0] == text[at];
  }

  lemma PlainShape(text: string, at: nat, end: nat)
    requires at < |text| && !IsOpener(text[at]) && end == Find(text, AnyOpener, at)
    ensures end > at && IsPlain(text[at..end]) && (end < |text| ==> IsOpener(text[end]))
  {
    assert end < |text| ==> Meets(AnyOpener, text[end]);
    forall i | at <= i < end
      ensures text[i] !in "<["
    {
      assert !Meets(AnyOpener, text[i]);
    }
  }

  /** What the segments from `at` on have to be like: an opener does not begin plain text. */
  predicate ShapedFrom(text: string, at: nat)
    requires at <= |text|
  {
    var segs := SegmentsFrom(text, at);
    && WellShaped(segs)
    && (segs != [] && at < |text| && IsOpener(text[at]) ==> !IsPlain(segs[0].value))
  }

  lemma ShapedCons(g: Segment, rest: seq<Segment>)
    requires WellShaped(rest)
    requires if g.kind.Marker? then IsMarker(g.value)
             else IsPlain(g.value) && (rest != [] ==> !IsPlain(rest[0].value))
    ensures WellShaped([g] + rest)
  {
    assert ([g] + rest)[1..] == rest;
  }

  lemma OpenerIsNotPlain(v: string)
    requires v != "" && IsOpener(v[0])
    ensures !IsPlain(v)
  {
    assert v[0] in "<[";
  }

  lemma MarkerShaped(text: string, at: nat, end: nat)
    requires at < end < |text| && IsOpener(text[at]) && end == Find(text, CloserOf(text[at]), at)
    requires ShapedFrom(text, end + 1)
    ensures ShapedFrom(text, at)
  {
    SegmentsMarker(text, at, end);
    ClosedIsMarker(text, at, end);
    OpenerIsNotPlain(text[at..end + 1]);
    ShapedCons(Segment(Marker, text[at..end + 1]), SegmentsFrom(text, end + 1));
  }

  lemma SegmentsPlain(text: string, at: nat, end: nat)
    requires at < |text| && !IsOpener(text[at]) && end == Find(text, AnyOpener, at)
    ensures SegmentsFrom(text, at) == [Segment(Text, text[at..end])] + SegmentsFrom(text, end)
  {
  }

  lemma PlainShaped(text: string, at: nat, end: nat)
    requires at < |text| && !IsOpener(text[at]) && end == Find(text, AnyOpener, at)
    requires ShapedFrom(text, end)
    ensures ShapedFrom(text, at)
  {
    SegmentsPlain(text, at, end);
    PlainShape(text, at, end);
    ShapedCons(Segment(Text, text[at..end]), SegmentsFrom(text, end));
  }

  /** The segments of a text have these shapes. Together with losing nothing this says where the text is cut. */
  lemma {:induction false} SegmentShapes(text: string, at: nat)
    requires at <= |text|
    ensures ShapedFrom(text, at)
    decreases |text| - at
  {
    if at < |text| {
      if IsOpener(text[at]) {
        var end := Find(text, CloserOf(text[at]), at);
        if end == |text| {
          UnclosedShape(text, at);
        } else {
          ClosedIsMarker(text, at, end);
          SegmentShapes(text, end + 1);
          MarkerShaped(text, at, end);
        }
      } else {
        var end := Find(text, AnyOpener, at);
        PlainShape(text, at, end);
        SegmentShapes(text, end);
        PlainShaped(text, at, end);
      }
    }
  }

  lemma OneMore(done: seq<Segment>, g: Segment, rest: seq<Segment>)
    ensures done + ([g] + rest) == done + [g] + rest
  {
  }

  lemma TextStep(text: string, done: seq<Segment>, border: nat, pos: nat)
    requires border < pos <= |text| && !IsOpener(text[border])
    requires forall i :: border <= i < pos ==> !Meets(AnyOpener, text[i])
    requires pos < |text| ==> IsOpener(text[pos])
    ensures done + SegmentsFrom(text, border)
         == done + [Segment(Text, text[border..pos])] + SegmentsFrom(text, pos)
  {
    FindIs(text, AnyOpener, border, pos);
    OneMore(done, Segment(Text, text[border..pos]), SegmentsFrom(text, pos));
  }

  lemma SegmentsMarker(text: string, border: nat, pos: nat)
    requires border < pos < |text| && IsOpener(text[border]) && Find(text, CloserOf(text[border]), border) == pos
    ensures SegmentsFrom(text, border) == [Segment(Marker, text[border..pos + 1])] + SegmentsFrom(text, pos + 1)
  {
  }

  lemma MarkerStep(text: string, done: seq<Segment>, border: nat, pos: nat)
    requires border < pos < |text| && IsOpener(text[border])
    requires forall i :: border <= i < pos ==> !Meets(CloserOf(text[border]), text[i])
    requires IsCloser(text[border], text[pos])
    ensures done + SegmentsFrom(text, border)
         == done + [Segment(Marker, text[border..pos + 1])] + SegmentsFrom(text, pos + 1)
  {
    FindIs(text, CloserOf(text[border]), border, pos);
    SegmentsMarker(text, border, pos);
    OneMore(done, Segment(Marker, text[border..pos + 1]), SegmentsFrom(text, pos + 1));
  }

  lemma UnclosedStep(text: string, border: nat)
    requires border < |text| && IsOpener(text[border])
    requires forall i :: border <= i < |text| ==> !Meets(CloserOf(text[border]), text[i])
    ensures SegmentsFrom(text, border) == [Segment(Text, text[border..])]
  {
    FindIs(text, CloserOf(text[border]), border, |text|);
  }

  /** The scan is at `pos`; the segments before `border` are done. */
  ghost predicate Scanning(text: string, segs: seq<Segment>, inMarker: bool, opener: char, border: nat, pos: nat) {
    && border <= pos <= |text|
    && (inMarker ==> border < pos && IsOpener(opener) && opener == text[border])
    && (forall i :: border <= i < pos ==> !Meets(if inMarker then CloserOf(opener) else AnyOpener, text[i]))
    && segs + SegmentsFrom(text, border) == SegmentsOf(text)
  }

  lemma OpenerStep(text: string, segs: seq<Segment>, opener: char, border: nat, pos: nat)
    requires Scanning(text, segs, false, opener, border, pos) && pos < |text| && IsOpener(text[pos])
    ensures var segs' := if border < pos then segs + [Segment(Text, text[border..pos])] else segs;
            Scanning(text, segs', true, text[pos], pos, pos + 1)
  {
    if border < pos {
      assert !Meets(AnyOpener, text[border]);
      TextStep(text, segs, border, pos);
    }
  }

  lemma CloserStep(text: string, segs: seq<Segment>, opener: char, border: nat, pos: nat)
    requires Scanning(text, segs, true, opener, border, pos) && pos < |text| && IsCloser(opener, text[pos])
    ensures Scanning(text, segs + [Segment(Marker, text[border..pos + 1])], false, '\0', pos + 1, pos + 1)
  {
    MarkerStep(text, segs, border, pos);
  }

  lemma PlainStep(text: string, segs: seq<Segment>, inMarker: bool, opener: char, border: nat, pos: nat)
    requires Scanning(text, segs, inMarker, opener, border, pos) && pos < |text|
    requires if inMarker then !IsCloser(opener, text[pos]) else !IsOpener(text[pos])
    ensures Scanning(text, segs, inMarker, opener, border, pos + 1)
  {
  }

  lemma LastStep(text: string, segs: seq<Segment>, inMarker: bool, opener: char, border: nat)
    requires Scanning(text, segs, inMarker, opener, border, |text|)
    ensures SegmentsOf(text) == if border < |text| then segs + [Segment(Text, text[border..])] else segs
  {
    if border < |text| {
      if inMarker {
        UnclosedStep(text, border);
      } else {
        assert !Meets(AnyOpener, text[border]);
        TextStep(text, segs, border, |text|);
        assert text[border..|text|] == text[border..];
      }
    }
  }

  /** One iteration of the loop as written, over a border and a flag. */
  method ScanChar(text: string, pos: nat, segs0: seq<Segment>, inMarker0: bool, opener0: char, border0: nat)
    returns (segs: seq<Segment>, inMarker: bool, opener: char, border: nat)
    requires Scanning(text, segs0, inMarker0, opener0, border0, pos) && pos < |text|
    ensures Scanning(text, segs, inMarker, opener, border, pos + 1)
  {
    segs, inMarker, opener, border := segs0, inMarker0, opener0, border0;
    if !inMarker && IsOpener(text[pos]) {
      OpenerStep(text, segs, opener, border, pos);
      if border < pos {
        segs := segs + [Segment(Text, text[border..pos])];
      }
      border := pos;
      inMarker := true;
      opener := text[pos];
    } else if inMarker && IsCloser(opener, text[pos]) {
      CloserStep(text, segs, opener, border, pos);
      segs := segs + [Segment(Marker, text[border..pos + 1])];
      border := pos + 1;
      inMarker := false;
      opener := '\0';
    } else {
      PlainStep(text, segs, inMarker, opener, border, pos);
    }
  }

  method SegmentizeMarkers(text: string) returns (segs: seq<Segment>)
    ensures segs == SegmentsOf(text)
  {
    segs := [];
    var inMarker, opener, border: nat := false, '\0', 0;
    for pos := 0 to |text|
      invariant Scanning(text, segs, inMarker, opener, border, pos)
    {
      segs, inMarker, opener, border := ScanChar(text, pos, segs, inMarker, opener, border);
    }
    LastStep(text, segs, inMarker, opener, border);
    if border < |text| {
      segs := segs + [Segment(Text, text[border..])];
    }
  }
}
