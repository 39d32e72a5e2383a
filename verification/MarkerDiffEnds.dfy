/** How far the marker-aware diff goes: what it leaves of the two sides shares no end that is text. */
module MarkerDiffEnds {
  import opened Segments
  import opened MarkerDiff
  import opened MarkerDiffLaws

  // ----- the text-level trim

  predicate SameFirst(a: string, b: string) {
    a != "" && b != "" && a[0] == b[0]
  }

  predicate SameLast(a: string, b: string) {
    a != "" && b != "" && a[|a| - 1] == b[|b| - 1]
  }

  lemma StartsDiffer(a: string, b: string, p: nat, s: nat)
    requires p + s <= |a| && p + s <= |b|
    requires p + s < |a| && p + s < |b| ==> a[p] != b[p]
    ensures !SameFirst(a[p..|a| - s], b[p..|b| - s])
  {
  }

  lemma EndsDiffer(a: string, b: string, p: nat, s: nat)
    requires p + s <= |a| && p + s <= |b|
    requires s < |a| && s < |b| ==> a[|a| - 1 - s] != b[|b| - 1 - s]
    ensures !SameLast(a[p..|a| - s], b[p..|b| - s])
  {
  }

  lemma CutsMaximal(a: string, b: string, textStart: bool, textEnd: bool)
    ensures var (p, s) := SharedEnds(a, b, textStart, textEnd);
            && (textStart ==> !SameFirst(a[p..|a| - s], b[p..|b| - s]))
            && (textEnd ==> !SameLast(a[p..|a| - s], b[p..|b| - s]))
            && (!textStart ==> p == 0) && (!textEnd ==> s == 0)
  {
    var (p, s) := SharedEnds(a, b, textStart, textEnd);
    if textEnd {
      CommonSuffix(a, b);
      EndsDiffer(a, b, p, s);
    }
    if textStart {
      CommonPrefix(a[..|a| - s], b[..|b| - s]);
      StartsDiffer(a, b, p, s);
    }
  }

  /** The suffix is counted first and is as long as it can be. */
  lemma SuffixFirst(a: string, b: string, textStart: bool, k: nat)
    requires k <= |a| && k <= |b| && a[|a| - k..] == b[|b| - k..]
    ensures k <= SharedEnds(a, b, textStart, true).1
  {
    CommonSuffix(a, b);
    var s := CommonSuffixLen(a, b);
    if s < k {
      assert a[|a| - k..][k - 1 - s] == b[|b| - k..][k - 1 - s];
    }
  }

  lemma Agree(a: string, b: string, k: nat, i: nat)
    ensures i < k <= |a| && k <= |b| && a[..k] == b[..k] ==> a[i] == b[i]
  {
    if i < k <= |a| && k <= |b| && a[..k] == b[..k] {
      assert a[..k][i] == b[..k][i];
    }
  }

  /** Then the prefix is, on what the suffix leaves. */
  lemma PrefixNext(a: string, b: string, textEnd: bool, k: nat)
    requires var s := SharedEnds(a, b, true, textEnd).1; k + s <= |a| && k + s <= |b|
    requires a[..k] == b[..k]
    ensures k <= SharedEnds(a, b, true, textEnd).0
  {
    var s := SharedEnds(a, b, true, textEnd).1;
    PrefixCounted(a, b, textEnd, s);
    CommonPrefix(a[..|a| - s], b[..|b| - s]);
    Agree(a, b, k, CommonPrefixLen(a[..|a| - s], b[..|b| - s]));
  }

  lemma PrefixCounted(a: string, b: string, textEnd: bool, s: nat)
    requires s == SharedEnds(a, b, true, textEnd).1
    ensures SharedEnds(a, b, true, textEnd).0 == CommonPrefixLen(a[..|a| - s], b[..|b| - s])
  {
  }

  // ----- any two texts

  predicate TextStart(l: seq<Segment>, r: seq<Segment>, w: Window)
    requires InRange(l, r, w)
  {
    l[w.ls].kind.Text? && r[w.rs].kind.Text?
  }

  predicate TextEnd(l: seq<Segment>, r: seq<Segment>, w: Window)
    requires InRange(l, r, w)
  {
    l[w.le].kind.Text? && r[w.re].kind.Text?
  }

  lemma TrimmedIs(l: seq<Segment>, r: seq<Segment>, w: Window, p: nat, s: nat)
    requires InRange(l, r, w)
    requires (p, s) == SharedEnds(RemL(l, w), RemR(r, w), TextStart(l, r, w), TextEnd(l, r, w))
    ensures Trimmed(l, r, w) == MoveOut(w, RemL(l, w), RemR(r, w), p, s)
  {
  }

  lemma CutEnds(w: Window, a: string, b: string, textStart: bool, textEnd: bool)
    ensures var (p, s) := SharedEnds(a, b, textStart, textEnd);
            var x := MoveOut(w, a, b, p, s);
            && (if textStart then !SameFirst(x.left, x.right) else x.prefix == w.prefix)
            && (if textEnd then !SameLast(x.left, x.right) else x.suffix == w.suffix)
  {
    CutsMaximal(a, b, textStart, textEnd);
    assert w.prefix + "" == w.prefix && "" + w.suffix == w.suffix;
  }

  lemma TrimmedEnds(l: seq<Segment>, r: seq<Segment>, w: Window)
    requires InRange(l, r, w)
    ensures var x := Trimmed(l, r, w);
            && (if TextStart(l, r, w) then !SameFirst(x.left, x.right) else x.prefix == w.prefix)
            && (if TextEnd(l, r, w) then !SameLast(x.left, x.right) else x.suffix == w.suffix)
  {
    var (p, s) := SharedEnds(RemL(l, w), RemR(r, w), TextStart(l, r, w), TextEnd(l, r, w));
    TrimmedIs(l, r, w, p, s);
    CutEnds(w, RemL(l, w), RemR(r, w), TextStart(l, r, w), TextEnd(l, r, w));
  }

  /** What is left of the two sides has no first character in common if both began with text after the segments
      were matched, and no last one if both ended with it. At a marker nothing is cut. */
  lemma LeftoversDiffer(left: string, right: string)
    requires SegmentsOf(left) != [] && SegmentsOf(right) != []
    ensures var l, r := SegmentsOf(left), SegmentsOf(right);
            var w, x := Final(l, r), DiffSplit(left, right);
            x.left != "" && x.right != "" ==>
              && (if TextStart(l, r, w) then x.left[0] != x.right[0] else x.prefix == w.prefix)
              && (if TextEnd(l, r, w) then x.left[|x.left| - 1] != x.right[|x.right| - 1] else x.suffix == w.suffix)
  {
    var l, r := SegmentsOf(left), SegmentsOf(right);
    TrimmedEnds(l, r, Final(l, r));
  }

  /** A split without a difference has all of the left text as its prefix. If only the right has something left
      and the left text is a prefix of it, the prefix is the left text and the rest is the end of the right. */
  lemma FixedForms(left: string, right: string)
    ensures var x := DiffSplit(left, right);
            && (x.left == "" && x.right == "" ==> x.prefix == left && x.suffix == "")
            && (x.left == "" && x.right != "" && left <= right ==>
                  x.prefix == left && x.suffix == "" && x.right == right[|left|..])
  {
    if SegmentsOf(left) == [] || SegmentsOf(right) == [] {
      SegmentsAreGood(left);
      SegmentsAreGood(right);
    } else {
      DiffSplitIs(left, right);
    }
  }

  // ----- equal texts

  lemma SameRests(l: seq<Segment>)
    requires l != []
    ensures var w := Final(l, l);
            && w.ls == w.rs && w.le == w.re && w.lDone == w.rDone
            && (RemL(l, w) == "" || (TextStart(l, l, w) && TextEnd(l, l, w)))
  {
    var w0 := Match(l, l, Start(l, l));
    FinalSwaps(l, l);
    StartAligned(l, l);
    if Halves(l, l, 0, |l|) {
      MatchUsesUp(l, l, Start(l, l), |l| / 2);
      UsedUpLeavesNothing(l, l, w0, |l| / 2);
    } else {
      MatchStops(l, l, Start(l, l));
      assert l[w0.ls..w0.ls] == [];
    }
  }

  /** Equal texts have nothing left, and all of the text is the prefix. */
  lemma EqualTextsSplit(text: string)
    ensures DiffSplit(text, text) == Split(text, "", "", "")
  {
    SegmentsAreGood(text);
    var l := SegmentsOf(text);
    if l != [] {
      SameRests(l);
      TrimmedEnds(l, l, Final(l, l));
    }
  }

  // ----- texts without markers

  predicate NoOpener(text: string) {
    forall i :: 0 <= i < |text| ==> text[i] != '<' && text[i] != '['
  }

  lemma OneSegment(text: string)
    requires text != "" && NoOpener(text)
    ensures SegmentsOf(text) == [Segment(Text, text)]
  {
    FindIs(text, AnyOpener, 0, |text|);
    assert text[0..|text|] == text;
    assert SegmentsFrom(text, |text|) == [];
  }

  lemma PlainWindow(left: string, right: string)
    requires left != "" && right != "" && NoOpener(left) && NoOpener(right)
    ensures SegmentsOf(left) == [Segment(Text, left)] && SegmentsOf(right) == [Segment(Text, right)]
    ensures var l, r, w := SegmentsOf(left), SegmentsOf(right), Window(0, 0, 0, 0, false, false, "", "");
            Final(l, r) == w && RemL(l, w) == left && RemR(r, w) == right
  {
    OneSegment(left);
    OneSegment(right);
    var l, r := SegmentsOf(left), SegmentsOf(right);
    JoinOne(l[0]);
    JoinOne(r[0]);
    assert l[0..1] == l && r[0..1] == r;
  }

  lemma NothingBefore(w: Window, a: string, b: string, p: nat, s: nat)
    requires w.prefix == "" == w.suffix && p + s <= |a| && p + s <= |b|
    ensures MoveOut(w, a, b, p, s) == Split(a[..p], a[|a| - s..], a[p..|a| - s], b[p..|b| - s])
  {
    assert "" + a[..p] == a[..p] && a[|a| - s..] + "" == a[|a| - s..];
  }

  lemma DiffSplitIs(left: string, right: string)
    requires SegmentsOf(left) != [] && SegmentsOf(right) != []
    ensures var l, r := SegmentsOf(left), SegmentsOf(right);
            DiffSplit(left, right) == FixUp(left, right, Trimmed(l, r, Final(l, r)))
  {
  }

  /** The two texts without the ends they share. */
  function PlainSplit(left: string, right: string): Split {
    var (p, s) := SharedEnds(left, right, true, true);
    Split(left[..p], left[|left| - s..], left[p..|left| - s], right[p..|right| - s])
  }

  lemma PlainTrim(left: string, right: string)
    requires left != "" && right != "" && NoOpener(left) && NoOpener(right)
    ensures var l, r := SegmentsOf(left), SegmentsOf(right);
            l != [] && r != [] && Trimmed(l, r, Final(l, r)) == PlainSplit(left, right)
  {
    PlainWindow(left, right);
    var w := Window(0, 0, 0, 0, false, false, "", "");
    var (p, s) := SharedEnds(left, right, true, true);
    TrimmedIs(SegmentsOf(left), SegmentsOf(right), w, p, s);
    NothingBefore(w, left, right, p, s);
  }

  lemma OnlyTrimmed(left: string, right: string)
    requires left != "" && right != "" && NoOpener(left) && NoOpener(right)
    ensures DiffSplit(left, right) == FixUp(left, right, PlainSplit(left, right))
  {
    PlainTrim(left, right);
    DiffSplitIs(left, right);
  }

  /** A text without openers that extends the other: the rest is what is new. */
  lemma PlainExtension(left: string, right: string)
    requires left != "" && NoOpener(right) && left <= right
    ensures DiffSplit(left, right) == Split(left, "", "", right[|left|..])
  {
    OnlyTrimmed(left, right);
    PrefixUsesUp(left, right);
    FixUpExtends(left, right, SharedEnds(left, right, true, true).0);
  }

  lemma PrefixUsesUp(left: string, right: string)
    requires left <= right
    ensures var (p, s) := SharedEnds(left, right, true, true); p == |left| - s
  {
    var k := |left| - SharedEnds(left, right, true, true).1;
    assert left == right[..|left|];
    assert left[..k] == right[..k];
    PrefixNext(left, right, true, k);
  }

  lemma FixUpExtends(left: string, right: string, p: nat)
    requires left <= right && p <= |left|
    ensures FixUp(left, right, Split(left[..p], left[p..], "", right[p..|right| - (|left| - p)]))
         == Split(left, "", "", right[|left|..])
  {
    if |right| == |left| {
      assert right[p..|right| - (|left| - p)] == "" == right[|left|..];
    }
  }

  lemma PlainParts(left: string, right: string)
    requires !(left <= right)
    ensures var x, (p, s) := PlainSplit(left, right), SharedEnds(left, right, true, true);
            && FixUp(left, right, x) == x && |x.prefix| == p && |x.suffix| == s
            && x.prefix + x.left + x.suffix == left && x.prefix + x.right + x.suffix == right
  {
    var (p, s) := SharedEnds(left, right, true, true);
    AllShared(left, right, p, s);
    Cut(left, p, |left| - s);
    Cut(right, p, |right| - s);
  }

  lemma AllShared(a: string, b: string, p: nat, s: nat)
    requires p + s <= |a| && p + s <= |b| && a[..p] == b[..p] && a[|a| - s..] == b[|b| - s..]
    ensures p + s == |a| && p + s == |b| ==> a == b
  {
    if p + s == |a| && p + s == |b| {
      assert a == a[..p] + a[p..] && b == b[..p] + b[p..];
    }
  }

  /** The prefix and the suffix that the two texts share are as long as they can be, the suffix first. */
  predicate LongestShared(left: string, right: string, prefix: nat, suffix: nat, k: nat)
    requires k <= |left| && k <= |right|
  {
    && (left[|left| - k..] == right[|right| - k..] ==> k <= suffix)
    && (left[..k] == right[..k] && k + suffix <= |left| && k + suffix <= |right| ==> k <= prefix)
  }

  lemma EndsAreLongest(left: string, right: string, k: nat)
    requires k <= |left| && k <= |right|
    ensures var (p, s) := SharedEnds(left, right, true, true); LongestShared(left, right, p, s, k)
  {
    var (p, s) := SharedEnds(left, right, true, true);
    if left[|left| - k..] == right[|right| - k..] {
      SuffixFirst(left, right, true, k);
    }
    if left[..k] == right[..k] && k + s <= |left| && k + s <= |right| {
      PrefixNext(left, right, true, k);
    }
  }

  /** Any other two texts without openers: the suffix is the longest the two have in common, and the prefix the
      longest that what is left in front of it has in common. */
  lemma PlainTextsSplit(left: string, right: string, k: nat)
    requires left != "" && right != "" && NoOpener(left) && NoOpener(right) && !(left <= right)
    requires k <= |left| && k <= |right|
    ensures var x := DiffSplit(left, right);
            && x.prefix + x.left + x.suffix == left && x.prefix + x.right + x.suffix == right
            && LongestShared(left, right, |x.prefix|, |x.suffix|, k)
  {
    OnlyTrimmed(left, right);
    PlainParts(left, right);
    EndsAreLongest(left, right, k);
  }
}
