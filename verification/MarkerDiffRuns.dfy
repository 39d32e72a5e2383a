/** Which segments the marker-aware diff matches: the common runs at both ends, and which run gets the segments
    that belong to both. */
module MarkerDiffRuns {
  import opened Segments
  import opened MarkerDiff
  import opened MarkerDiffLaws

  /** The first `p` and the last `s` segments are the same, and no more. */
  predicate Runs(l: seq<Segment>, r: seq<Segment>, p: nat, s: nat) {
    && p <= |l| <= |r| && s <= |l|
    && (forall i {:trigger l[i]} :: 0 <= i < p ==> l[i] == r[i])
    && (forall i {:trigger l[i]} :: |l| - s <= i < |l| ==> l[i] == r[i + (|r| - |l|)])
    && (p < |l| ==> l[p] != r[p])
    && (s < |l| ==> l[|l| - 1 - s] != r[|r| - 1 - s])
  }

  lemma {:induction false} FirstRun(l: seq<Segment>, r: seq<Segment>, from: nat) returns (p: nat)
    requires from <= |l| <= |r| && forall i {:trigger l[i]} :: 0 <= i < from ==> l[i] == r[i]
    ensures p <= |l| && (forall i {:trigger l[i]} :: 0 <= i < p ==> l[i] == r[i]) && (p < |l| ==> l[p] != r[p])
    decreases |l| - from
  {
    p := from;
    if from < |l| && l[from] == r[from] {
      p := FirstRun(l, r, from + 1);
    }
  }

  lemma {:induction false} LastRun(l: seq<Segment>, r: seq<Segment>, from: nat) returns (s: nat)
    requires from <= |l| <= |r|
    requires forall i {:trigger l[i]} :: |l| - from <= i < |l| ==> l[i] == r[i + (|r| - |l|)]
    ensures s <= |l| && (forall i {:trigger l[i]} :: |l| - s <= i < |l| ==> l[i] == r[i + (|r| - |l|)])
    ensures s < |l| ==> l[|l| - 1 - s] != r[|r| - 1 - s]
    decreases |l| - from
  {
    s := from;
    if from < |l| && l[|l| - 1 - from] == r[|r| - 1 - from] {
      s := LastRun(l, r, from + 1);
    }
  }

  /** Any two sides have such runs. */
  lemma RunsExist(l: seq<Segment>, r: seq<Segment>) returns (p: nat, s: nat)
    requires |l| <= |r|
    ensures Runs(l, r, p, s)
  {
    p := FirstRun(l, r, 0);
    s := LastRun(l, r, 0);
  }

  /** The window has not gone beyond the runs. */
  predicate Within(l: seq<Segment>, r: seq<Segment>, w: Window, p: nat, s: nat) {
    Aligned(l, r, w) && Runs(l, r, p, s) && w.ls <= p && |l| - 1 - w.le <= s
  }

  /** How many of its segments a side that the runs cover gives to the prefix: those in the first half that are in
      the first run, and those that are only there. */
  function Given(n: int, p: int, s: int): int {
    var k := if (n - 1) / 2 >= n - s then (n - 1) / 2 else n - s;
    if p <= k then p else k
  }

  /** Where the prefix ends in the window. */
  function CutAt(n: nat, w: Window, p: nat, s: nat): int {
    w.ls + Given(w.le + 1 - w.ls, p - w.ls, s - (n - 1 - w.le))
  }

  // ----- one round

  lemma PrefixMoves(l: seq<Segment>, r: seq<Segment>, w: Window, p: nat, s: nat)
    requires Within(l, r, w, p, s) && w.ls < w.le
    ensures w.rs != w.re && (l[w.ls] == r[w.rs] <==> w.ls < p)
    ensures l[w.le] == r[w.re] <==> |l| - 1 - w.le < s
  {
    if |l| - 1 - w.le < s {
      assert l[w.le] == r[w.le + (|r| - |l|)];
    }
  }

  /** A round that does not use the side up moves each cursor that stands in its run. */
  lemma RoundWithin(l: seq<Segment>, r: seq<Segment>, w: Window, p: nat, s: nat)
    requires Within(l, r, w, p, s) && w.ls < w.le && (w.ls < p || |l| - 1 - w.le < s)
    requires !(w.ls + 1 == w.le && w.ls < p && |l| - 1 - w.le < s)
    ensures !Stopped(l, r, w)
    ensures var v := Round(l, r, w);
            && Within(l, r, v, p, s)
            && v.ls == (if w.ls < p then w.ls + 1 else w.ls)
            && v.le == (if |l| - 1 - w.le < s then w.le - 1 else w.le)
  {
    PrefixMoves(l, r, w, p, s);
    var u := PrefixStep(l, r, w);
    PrefixStepAligned(l, r, w);
    SuffixStepAligned(l, r, u);
  }

  // ----- runs that do not overlap

  lemma {:induction false} MatchTakesRuns(l: seq<Segment>, r: seq<Segment>, w: Window, p: nat, s: nat)
    requires Within(l, r, w, p, s) && p + s < |l|
    ensures var v := Match(l, r, w); Within(l, r, v, p, s) && v.ls == p && v.le == |l| - 1 - s
    decreases w.le - w.ls
  {
    MatchRound(l, r, w);
    if w.ls < w.le {
      PrefixMoves(l, r, w, p, s);
      if w.ls < p || |l| - 1 - w.le < s {
        RoundWithin(l, r, w, p, s);
        MatchTakesRuns(l, r, Round(l, r, w), p, s);
      }
    }
  }

  lemma LeftoverKeepsRuns(l: seq<Segment>, r: seq<Segment>, w: Window, p: nat, s: nat)
    requires Within(l, r, w, p, s) && w.ls == p && w.le == |l| - 1 - s
    ensures Leftover(l, r, w) == w
  {
    LeftoverCases(l, r, w);
    assert r[w.re] == r[|r| - 1 - s];
  }

  lemma StartWithin(l: seq<Segment>, r: seq<Segment>, p: nat, s: nat)
    requires 0 < |l| <= |r| && Runs(l, r, p, s)
    ensures Within(l, r, Start(l, r), p, s)
  {
    StartAligned(l, r);
  }

  lemma Parts(l: seq<Segment>, r: seq<Segment>, w: Window, p: nat, s: nat)
    requires Aligned(l, r, w) && w.ls == p && w.le + 1 == |l| - s
    ensures w.prefix == Join(l[..p]) && w.suffix == Join(l[|l| - s..])
    ensures RemL(l, w) == Join(l[p..|l| - s])
    ensures p + s <= |r| && RemR(r, w) == Join(r[p..|r| - s])
  {
    assert w.re + 1 == |r| - s;
  }

  /** If the common runs at the two ends do not overlap, all of the first goes to the prefix and all of the last to
      the suffix, and the rest stays. */
  lemma RunsAreMatched(l: seq<Segment>, r: seq<Segment>, p: nat, s: nat)
    requires 0 < |l| <= |r| && Runs(l, r, p, s) && p + s < |l|
    ensures var w := Final(l, r);
            && w.prefix == Join(l[..p]) && w.suffix == Join(l[|l| - s..])
            && RemL(l, w) == Join(l[p..|l| - s]) && RemR(r, w) == Join(r[p..|r| - s])
  {
    StartWithin(l, r, p, s);
    MatchTakesRuns(l, r, Start(l, r), p, s);
    LeftoverKeepsRuns(l, r, Match(l, r, Start(l, r)), p, s);
    Parts(l, r, Final(l, r), p, s);
  }

  // ----- runs that overlap

  lemma CutRound(n: nat, w: Window, v: Window, p: nat, s: nat)
    requires w.ls < w.le < n && w.ls <= p && n - 1 - w.le <= s && p + s >= n
    requires v.ls == (if w.ls < p then w.ls + 1 else w.ls) && v.le == (if n - 1 - w.le < s then w.le - 1 else w.le)
    ensures CutAt(n, v, p, s) == CutAt(n, w, p, s)
  {
  }

  /** The shorter side is used up without matching a segment twice. */
  predicate UsedOnce(l: seq<Segment>, r: seq<Segment>, c: int, w: Window) {
    && 0 <= c <= |l| <= |r| && InRange(l, r, w)
    && w.prefix == Join(l[..c]) && w.suffix == Join(l[c..])
    && RemL(l, w) == "" && RemR(r, w) == Join(r[c..c + (|r| - |l|)])
  }

  lemma LastToSuffix(l: seq<Segment>, r: seq<Segment>, w: Window)
    requires Aligned(l, r, w) && |l| < |r| && w.ls == w.le && l[w.le] == r[w.re]
    ensures UsedOnce(l, r, w.ls, w.(suffix := r[w.re].value + w.suffix, re := w.re - 1, lDone := true))
  {
    var x := w.ls;
    assert l[x..x] == [];
    JoinFront(l, x);
  }

  lemma LastToPrefix(l: seq<Segment>, r: seq<Segment>, w: Window)
    requires Aligned(l, r, w) && |l| < |r| && w.ls == w.le && l[w.ls] == r[w.rs]
    ensures UsedOnce(l, r, w.ls + 1, w.(prefix := w.prefix + r[w.rs].value, rs := w.rs + 1, lDone := true))
  {
    var x := w.ls;
    assert l[x..x] == [];
    JoinFront(l, x);
  }

  lemma LastSegment(l: seq<Segment>, r: seq<Segment>, w: Window, p: nat, s: nat)
    requires Within(l, r, w, p, s) && |l| < |r| && p + s >= |l| && w.ls == w.le
    ensures UsedOnce(l, r, CutAt(|l|, w, p, s), Leftover(l, r, w))
  {
    var x := w.ls;
    LeftoverCases(l, r, w);
    if |l| - 1 - x < s {
      assert l[x] == r[x + (|r| - |l|)];
      LastToSuffix(l, r, w);
    } else {
      assert l[|l| - 1 - s] == l[x] && r[|r| - 1 - s] == r[w.re];
      LastToPrefix(l, r, w);
    }
  }

  lemma HalvesInside(l: seq<Segment>, r: seq<Segment>, w: Window, p: nat, s: nat)
    requires Within(l, r, w, p, s) && w.ls + 1 == w.le && w.ls < p && |l| - 1 - w.le < s
    ensures Halves(l, r, w.ls, w.le + 1)
  {
    PrefixMoves(l, r, w, p, s);
  }

  lemma {:induction false} MatchUsesOnce(l: seq<Segment>, r: seq<Segment>, w: Window, p: nat, s: nat)
    requires Within(l, r, w, p, s) && |l| < |r| && p + s >= |l| && !Halves(l, r, w.ls, w.le + 1)
    ensures UsedOnce(l, r, CutAt(|l|, w, p, s), Leftover(l, r, Match(l, r, w)))
    decreases w.le - w.ls
  {
    MatchRound(l, r, w);
    if w.ls == w.le {
      LastSegment(l, r, w, p, s);
    } else {
      PrefixMoves(l, r, w, p, s);
      if w.ls + 1 == w.le && w.ls < p && |l| - 1 - w.le < s {
        HalvesInside(l, r, w, p, s);
      }
      RoundWithin(l, r, w, p, s);
      var v := RoundStaysOpen(l, r, w);
      CutRound(|l|, w, v, p, s);
      MatchUsesOnce(l, r, v, p, s);
    }
  }

  /** If the common runs overlap, the shorter side is used up; a segment that belongs to both runs goes to the
      prefix in the first half of the side, and to the suffix in the second. The exception is a side that is half
      prefix and half suffix of the other. */
  lemma OverlappingRunsAreMatched(l: seq<Segment>, r: seq<Segment>, p: nat, s: nat)
    requires 0 < |l| < |r| && Runs(l, r, p, s) && p + s >= |l| && !Halves(l, r, 0, |l|)
    ensures UsedOnce(l, r, Given(|l|, p, s), Final(l, r))
  {
    var w := Start(l, r);
    StartWithin(l, r, p, s);
    CutAtStart(|l|, w, p, s);
    MatchUsesOnce(l, r, w, p, s);
    assert Final(l, r) == Leftover(l, r, Match(l, r, w));
  }

  lemma CutAtStart(n: nat, w: Window, p: nat, s: nat)
    requires w.ls == 0 && w.le + 1 == n
    ensures CutAt(n, w, p, s) == Given(n, p, s)
  {
  }
}
