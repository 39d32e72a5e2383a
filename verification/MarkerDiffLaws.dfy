/** When the marker-aware diff can be put back together: exactly when no segment was matched twice. */
module MarkerDiffLaws {
  import opened Segments
  import opened MarkerDiff

  /** The two inputs can be rebuilt from the split. */
  predicate Reconstructs(x: Split, left: string, right: string) {
    x.prefix + x.left + x.suffix == left && x.prefix + x.right + x.suffix == right
  }

  // ----- the condition

  /** The first half of the segments `lo..hi` of `l` is found at the same place in the longer (or equally
      long) `r`, and the second half at the same distance from the end. */
  predicate Halves(l: seq<Segment>, r: seq<Segment>, lo: nat, hi: nat)
    requires lo <= hi <= |l| <= |r|
  {
    && (lo + hi) % 2 == 0
    && (forall i {:trigger l[i]} :: lo <= i < (lo + hi) / 2 ==> l[i] == r[i])
    && (forall i {:trigger l[i]} :: (lo + hi) / 2 <= i < hi ==> l[i] == r[i + (|r| - |l|)])
  }

  /** The matching loop uses up all of the shorter side `l`, half as prefix and half as suffix, and the
      step after the loop matches its middle segment a second time. */
  predicate MatchedTwice(l: seq<Segment>, r: seq<Segment>) {
    && 0 < |l| < |r| && Halves(l, r, 0, |l|)
    && var middle := l[|l| / 2];
    && if |r| == |l| + 1 then middle == r[|l| / 2] && middle.kind.Marker?
       else middle == r[|r| - |l| / 2 - 1] || middle == r[|l| / 2]
  }

  /** The inputs for which the split cannot be put back together. A left side that is a prefix of the right
      is rescued by the last fix-up, unless nothing was left of the right. */
  predicate Misaligned(left: string, right: string) {
    var l, r := SegmentsOf(left), SegmentsOf(right);
    || (MatchedTwice(l, r) && (|r| == |l| + 1 || !(left <= right)))
    || MatchedTwice(r, l)
  }

  // ----- exchanging the sides

  function Swap(w: Window): Window {
    Window(w.rs, w.re, w.ls, w.le, w.rDone, w.lDone, w.prefix, w.suffix)
  }

  lemma {:induction false} MatchSwaps(l: seq<Segment>, r: seq<Segment>, w: Window)
    requires InRange(l, r, w)
    ensures Match(r, l, Swap(w)) == Swap(Match(l, r, w))
    decreases w.le - w.ls
  {
    if w.ls != w.le && w.rs != w.re && Advances(l, r, w) {
      var w1 := SuffixStep(l, r, PrefixStep(l, r, w));
      assert SuffixStep(r, l, PrefixStep(r, l, Swap(w))) == Swap(w1);
      MatchSwaps(l, r, w1);
    }
  }

  lemma LeftoverSwaps(l: seq<Segment>, r: seq<Segment>, w: Window)
    requires InRange(l, r, w)
    ensures Leftover(r, l, Swap(w)) == Swap(Leftover(l, r, w))
  {
  }

  // ----- the loop

  /** What has been matched is the same on both sides and has been matched once. */
  predicate Aligned(l: seq<Segment>, r: seq<Segment>, w: Window) {
    && |l| <= |r| && InRange(l, r, w) && !w.lDone && !w.rDone
    && w.ls == w.rs && w.re == w.le + (|r| - |l|)
    && (forall i {:trigger l[i]} :: 0 <= i < w.ls ==> l[i] == r[i])
    && (forall i {:trigger l[i]} :: w.le < i < |l| ==> l[i] == r[i + (|r| - |l|)])
    && w.prefix == Join(l[..w.ls]) && w.suffix == Join(l[w.le + 1..])
  }

  /** The loop stopped because a side is down to one segment or because neither end matches. */
  predicate Stopped(l: seq<Segment>, r: seq<Segment>, w: Window)
    requires InRange(l, r, w)
  {
    w.ls == w.le || w.rs == w.re || !Advances(l, r, w)
  }

  /** The shorter side is used up; its middle segment went to the suffix. */
  predicate UsedUp(l: seq<Segment>, r: seq<Segment>, mid: nat, w: Window)
    requires |l| <= |r|
  {
    && mid < |l| && w.ls == w.le == w.rs == mid && w.lDone && w.rDone == (|l| == |r|)
    && w.re == (if |l| == |r| then mid else mid + (|r| - |l|) - 1)
    && w.prefix == Join(l[..mid]) && w.suffix == Join(l[mid..])
  }

  lemma PrefixStepAligned(l: seq<Segment>, r: seq<Segment>, w: Window)
    requires Aligned(l, r, w) && w.ls != w.le && w.rs != w.re
    ensures Aligned(l, r, PrefixStep(l, r, w))
  {
    if l[w.ls] == r[w.rs] {
      assert l[..w.ls + 1] == l[..w.ls] + [l[w.ls]];
      JoinConcat(l[..w.ls], [l[w.ls]]);
      JoinOne(l[w.ls]);
    }
  }

  lemma SuffixStepAligned(l: seq<Segment>, r: seq<Segment>, w: Window)
    requires Aligned(l, r, w)
    ensures var w' := SuffixStep(l, r, w);
            if l[w.le] != r[w.re] || w.ls < w.le then Aligned(l, r, w')
            else UsedUp(l, r, w.le, w')
  {
    if l[w.le] == r[w.re] {
      assert l[w.le..] == [l[w.le]] + l[w.le + 1..];
      JoinConcat([l[w.le]], l[w.le + 1..]);
      JoinOne(l[w.le]);
    }
  }

  lemma HalvesEnds(l: seq<Segment>, r: seq<Segment>, lo: nat, hi: nat)
    requires lo < hi <= |l| <= |r| && Halves(l, r, lo, hi)
    ensures l[lo] == r[lo] && l[hi - 1] == r[hi - 1 + (|r| - |l|)]
  {
  }

  lemma HalvesShrink(l: seq<Segment>, r: seq<Segment>, lo: nat, hi: nat)
    requires lo + 2 <= hi <= |l| <= |r|
    requires l[lo] == r[lo] && l[hi - 1] == r[hi - 1 + (|r| - |l|)]
    ensures Halves(l, r, lo, hi) <==> Halves(l, r, lo + 1, hi - 1)
  {
    assert (lo + 1 + (hi - 1)) / 2 == (lo + hi) / 2;
    if Halves(l, r, lo + 1, hi - 1) {
      forall i | lo <= i < (lo + hi) / 2 ensures l[i] == r[i] {
        if i > lo { assert lo + 1 <= i; }
      }
      forall i | (lo + hi) / 2 <= i < hi ensures l[i] == r[i + (|r| - |l|)] {
        if i < hi - 1 { assert i < hi - 1; }
      }
    }
  }

  /** The windows after one round of the loop. */
  function Round(l: seq<Segment>, r: seq<Segment>, w: Window): (w': Window)
    requires InRange(l, r, w) && !Stopped(l, r, w)
    ensures InRange(l, r, w')
  {
    SuffixStep(l, r, PrefixStep(l, r, w))
  }

  /** A round that matches both ends uses up a side of two segments, or leaves the question of halves to
      what lies further in. */
  lemma RoundBoth(l: seq<Segment>, r: seq<Segment>, w: Window)
    requires Aligned(l, r, w) && !Stopped(l, r, w) && l[w.ls] == r[w.rs] && l[w.le] == r[w.re]
    ensures var w2 := Round(l, r, w);
            if w.ls + 1 == w.le then UsedUp(l, r, w.le, w2)
            else Aligned(l, r, w2) && w2.ls == w.ls + 1 && w2.le == w.le - 1
    ensures Halves(l, r, w.ls, w.le + 1) <==> Halves(l, r, w.ls + 1, w.le)
  {
    RoundBothEnds(l, r, w);
    HalvesShrink(l, r, w.ls, w.le + 1);
  }

  lemma RoundBothEnds(l: seq<Segment>, r: seq<Segment>, w: Window)
    requires Aligned(l, r, w) && !Stopped(l, r, w) && l[w.ls] == r[w.rs] && l[w.le] == r[w.re]
    ensures var w2 := Round(l, r, w);
            if w.ls + 1 == w.le then UsedUp(l, r, w.le, w2)
            else Aligned(l, r, w2) && w2.ls == w.ls + 1 && w2.le == w.le - 1
  {
    PrefixStepAligned(l, r, w);
    SuffixStepAligned(l, r, PrefixStep(l, r, w));
  }

  lemma RoundOne(l: seq<Segment>, r: seq<Segment>, w: Window)
    requires Aligned(l, r, w) && !Stopped(l, r, w) && !(l[w.ls] == r[w.rs] && l[w.le] == r[w.re])
    ensures var w2 := Round(l, r, w);
            && Aligned(l, r, w2) && w2.le - w2.ls < w.le - w.ls
            && !Halves(l, r, w.ls, w.le + 1) && !Halves(l, r, w2.ls, w2.le + 1)
  {
    var w1 := PrefixStep(l, r, w);
    PrefixStepAligned(l, r, w);
    SuffixStepAligned(l, r, w1);
    OneEndDiffers(l, r, w, w);
    OneEndDiffers(l, r, w, Round(l, r, w));
  }

  /** The loop uses up the shorter side when it splits into matching halves. */
  lemma {:induction false} MatchUsesUp(l: seq<Segment>, r: seq<Segment>, w: Window, mid: nat)
    requires Aligned(l, r, w) && Halves(l, r, w.ls, w.le + 1) && 2 * mid == w.ls + w.le + 1
    ensures UsedUp(l, r, mid, Match(l, r, w))
    decreases w.le - w.ls
  {
    HalvesEnds(l, r, w.ls, w.le + 1);
    RoundBoth(l, r, w);
    var w2 := Round(l, r, w);
    if w.ls + 1 == w.le {
      assert Match(l, r, w2) == w2;
    } else {
      MatchUsesUp(l, r, w2, mid);
    }
  }

  lemma MatchRound(l: seq<Segment>, r: seq<Segment>, w: Window)
    requires InRange(l, r, w)
    ensures Stopped(l, r, w) ==> Match(l, r, w) == w
    ensures !Stopped(l, r, w) ==> Match(l, r, w) == Match(l, r, Round(l, r, w))
  {
  }

  /** Otherwise it stops with everything matched once. */
  lemma {:induction false} MatchStops(l: seq<Segment>, r: seq<Segment>, w: Window)
    requires Aligned(l, r, w) && !Halves(l, r, w.ls, w.le + 1)
    ensures Aligned(l, r, Match(l, r, w)) && Stopped(l, r, Match(l, r, w))
    decreases w.le - w.ls
  {
    MatchRound(l, r, w);
    if !Stopped(l, r, w) {
      var w2 := RoundStaysOpen(l, r, w);
      MatchStops(l, r, w2);
    }
  }

  /** One more round leaves a smaller window that is not two halves either. */
  lemma RoundStaysOpen(l: seq<Segment>, r: seq<Segment>, w: Window) returns (w2: Window)
    requires Aligned(l, r, w) && !Halves(l, r, w.ls, w.le + 1) && !Stopped(l, r, w)
    ensures w2 == Round(l, r, w) && Aligned(l, r, w2) && !Halves(l, r, w2.ls, w2.le + 1)
    ensures w2.le - w2.ls < w.le - w.ls
  {
    w2 := Round(l, r, w);
    if l[w.ls] == r[w.rs] && l[w.le] == r[w.re] {
      RoundBoth(l, r, w);
    } else {
      RoundOne(l, r, w);
    }
  }

  /** If only one end matched, the other end keeps the rest from splitting into halves. */
  lemma OneEndDiffers(l: seq<Segment>, r: seq<Segment>, w: Window, w2: Window)
    requires Aligned(l, r, w) && Aligned(l, r, w2)
    requires (l[w.le] != r[w.re] && w2.le == w.le) || (l[w.ls] != r[w.rs] && w2.ls == w.ls)
    ensures !Halves(l, r, w2.ls, w2.le + 1)
  {
    if Halves(l, r, w2.ls, w2.le + 1) {
      HalvesEnds(l, r, w2.ls, w2.le + 1);
    }
  }

  // ----- after the loop

  function RemL(l: seq<Segment>, w: Window): string
    requires w.ls <= w.le < |l|
  {
    Remainder(l, w.ls, w.le, w.lDone)
  }

  function RemR(r: seq<Segment>, w: Window): string
    requires w.rs <= w.re < |r|
  {
    Remainder(r, w.rs, w.re, w.rDone)
  }

  /** Prefix, remainder and suffix make up both sides. */
  predicate Sound(l: seq<Segment>, r: seq<Segment>, w: Window)
    requires InRange(l, r, w)
  {
    && w.prefix + RemL(l, w) + w.suffix == Join(l)
    && w.prefix + RemR(r, w) + w.suffix == Join(r)
  }

  lemma Cut<T>(s: seq<T>, a: nat, b: nat)
    requires a <= b <= |s|
    ensures s[..a] + s[a..b] + s[b..] == s
  {
  }

  lemma JoinThree(segs: seq<Segment>, a: nat, b: nat)
    requires a <= b <= |segs|
    ensures Join(segs[..a]) + Join(segs[a..b]) + Join(segs[b..]) == Join(segs)
  {
    Cut(segs, a, b);
    JoinConcat(segs[..a] + segs[a..b], segs[b..]);
    JoinConcat(segs[..a], segs[a..b]);
  }

  lemma AlignedSlices(l: seq<Segment>, r: seq<Segment>, w: Window)
    requires Aligned(l, r, w)
    ensures l[..w.ls] == r[..w.rs] && l[w.le + 1..] == r[w.re + 1..]
  {
    var a, b := l[w.le + 1..], r[w.re + 1..];
    forall i | 0 <= i < |a| ensures a[i] == b[i] {
      assert l[w.le + 1 + i] == r[w.le + 1 + i + (|r| - |l|)];
    }
  }

  lemma AlignedIsSound(l: seq<Segment>, r: seq<Segment>, w: Window)
    requires Aligned(l, r, w)
    ensures Sound(l, r, w)
  {
    AlignedSlices(l, r, w);
    PartsAddUp(l, w.ls, w.le, w.prefix, w.suffix);
    PartsAddUp(r, w.rs, w.re, w.prefix, w.suffix);
  }

  lemma PartsAddUp(segs: seq<Segment>, start: nat, end: nat, prefix: string, suffix: string)
    requires start <= end < |segs| && prefix == Join(segs[..start]) && suffix == Join(segs[end + 1..])
    ensures prefix + Remainder(segs, start, end, false) + suffix == Join(segs)
  {
    JoinThree(segs, start, end + 1);
  }

  /** Soundness from the cuts: the left side is cut at `i` and `j`, the right side at `i'` and `j'`. */
  lemma SoundFromCuts(l: seq<Segment>, r: seq<Segment>, w: Window, i: nat, j: nat, i': nat, j': nat)
    requires InRange(l, r, w) && i <= j <= |l| && i' <= j' <= |r|
    requires l[..i] == r[..i'] && l[j..] == r[j'..]
    requires w.prefix == Join(l[..i]) && w.suffix == Join(l[j..])
    requires RemL(l, w) == Join(l[i..j]) && RemR(r, w) == Join(r[i'..j'])
    ensures Sound(l, r, w)
  {
    JoinThree(l, i, j);
    JoinThree(r, i', j');
  }

  lemma JoinFront(segs: seq<Segment>, i: nat)
    requires i < |segs|
    ensures Join(segs[i..]) == segs[i].value + Join(segs[i + 1..])
    ensures Join(segs[..i + 1]) == Join(segs[..i]) + segs[i].value
  {
    assert segs[i..][0] == segs[i] && segs[i..][1..] == segs[i + 1..];
    assert segs[..i + 1] == segs[..i] + [segs[i]];
    JoinConcat(segs[..i], [segs[i]]);
    JoinOne(segs[i]);
  }

  lemma SameSnoc<T>(a: seq<T>, b: seq<T>, i: nat, j: nat)
    requires i < |a| && j < |b| && a[..i] == b[..j] && a[i] == b[j]
    ensures a[..i + 1] == b[..j + 1]
  {
    assert a[..i + 1] == a[..i] + [a[i]] && b[..j + 1] == b[..j] + [b[j]];
  }

  lemma SameCons<T>(a: seq<T>, b: seq<T>, i: nat, j: nat)
    requires i < |a| && j < |b| && a[i + 1..] == b[j + 1..] && a[i] == b[j]
    ensures a[i..] == b[j..]
  {
    assert a[i..] == [a[i]] + a[i + 1..] && b[j..] == [b[j]] + b[j + 1..];
  }

  lemma SuffixTaken(l: seq<Segment>, r: seq<Segment>, w: Window, v: Window)
    requires Aligned(l, r, w) && w.ls == w.le && w.rs != w.re && l[w.ls] == r[w.re]
    requires v == w.(suffix := r[w.re].value + w.suffix, re := w.re - 1, lDone := true)
    ensures v.prefix == Join(l[..w.ls]) && v.suffix == Join(l[w.ls..])
    ensures RemL(l, v) == Join(l[w.ls..w.ls]) && RemR(r, v) == Join(r[w.rs..w.re])
  {
    JoinFront(l, w.ls);
  }

  /** The last segment of the left side matches the end of the right side. */
  lemma SuffixLeftoverSound(l: seq<Segment>, r: seq<Segment>, w: Window)
    requires Aligned(l, r, w) && w.ls == w.le && w.rs != w.re && l[w.ls] == r[w.re]
    ensures Sound(l, r, w.(suffix := r[w.re].value + w.suffix, re := w.re - 1, lDone := true))
  {
    var v := w.(suffix := r[w.re].value + w.suffix, re := w.re - 1, lDone := true);
    SuffixTaken(l, r, w, v);
    AlignedSlices(l, r, w);
    SameCons(l, r, w.ls, w.re);
    SoundFromCuts(l, r, v, w.ls, w.ls, w.rs, w.re);
  }

  /** The last segment of the left side matches the start of the right side. */
  lemma PrefixLeftoverSound(l: seq<Segment>, r: seq<Segment>, w: Window)
    requires Aligned(l, r, w) && w.ls == w.le && w.rs != w.re && l[w.ls] == r[w.rs]
    ensures Sound(l, r, w.(prefix := w.prefix + r[w.rs].value, rs := w.rs + 1, lDone := true))
  {
    AlignedSlices(l, r, w);
    JoinFront(l, w.ls);
    assert l[w.ls + 1..w.ls + 1] == [] == l[w.ls..w.ls];
    SameSnoc(l, r, w.ls, w.rs);
    SoundFromCuts(l, r, w.(prefix := w.prefix + r[w.rs].value, rs := w.rs + 1, lDone := true),
      w.ls + 1, w.ls + 1, w.rs + 1, w.re + 1);
  }

  /** Both sides are down to one segment, and it is the same. */
  lemma LastLeftoverSound(l: seq<Segment>, r: seq<Segment>, w: Window)
    requires Aligned(l, r, w) && w.ls == w.le && w.rs == w.re && l[w.ls] == r[w.rs]
    ensures Sound(l, r, w.(prefix := w.prefix + r[w.rs].value, lDone := true, rDone := true))
  {
    AlignedSlices(l, r, w);
    JoinFront(l, w.ls);
    assert l[w.ls + 1..w.ls + 1] == [] == l[w.ls..w.ls];
    assert r[w.rs + 1..w.rs + 1] == [] == r[w.rs..w.rs];
    SameSnoc(l, r, w.ls, w.rs);
    SoundFromCuts(l, r, w.(prefix := w.prefix + r[w.rs].value, lDone := true, rDone := true),
      w.ls + 1, w.ls + 1, w.rs + 1, w.rs + 1);
  }

  /** The branches of the step for an aligned window, where the left side is not the longer. */
  lemma LeftoverCases(l: seq<Segment>, r: seq<Segment>, w: Window)
    requires Aligned(l, r, w)
    ensures var last := w.ls == w.le && w.rs != w.re; var v := Leftover(l, r, w);
            if last && l[w.ls] == r[w.re] then v == w.(suffix := r[w.re].value + w.suffix, re := w.re - 1, lDone := true)
            else if last && l[w.ls] == r[w.rs] then v == w.(prefix := w.prefix + r[w.rs].value, rs := w.rs + 1, lDone := true)
            else if w.ls == w.le && w.rs == w.re && l[w.ls] == r[w.rs] && l[w.ls].kind.Marker? then
              v == w.(prefix := w.prefix + r[w.rs].value, lDone := true, rDone := true)
            else v == w
  {
  }

  /** If the loop stopped with everything matched once, the leftover step keeps it that way. */
  lemma LeftoverKeepsSound(l: seq<Segment>, r: seq<Segment>, w: Window)
    requires Aligned(l, r, w)
    ensures Sound(l, r, Leftover(l, r, w))
  {
    LeftoverCases(l, r, w);
    if w.ls == w.le && w.rs != w.re && l[w.ls] == r[w.re] {
      SuffixLeftoverSound(l, r, w);
    } else if w.ls == w.le && w.rs != w.re && l[w.ls] == r[w.rs] {
      PrefixLeftoverSound(l, r, w);
    } else if w.ls == w.le && w.rs == w.re && l[w.ls] == r[w.rs] && l[w.ls].kind.Marker? {
      LastLeftoverSound(l, r, w);
    } else {
      AlignedIsSound(l, r, w);
    }
  }

  lemma HalvesSlices(l: seq<Segment>, r: seq<Segment>, mid: nat)
    requires 2 * mid == |l| <= |r| && Halves(l, r, 0, |l|)
    ensures l[..mid] == r[..mid] && l[mid..] == r[mid + (|r| - |l|)..]
  {
    var a, b := l[mid..], r[mid + (|r| - |l|)..];
    forall i | 0 <= i < |a| ensures a[i] == b[i] {
      assert l[mid + i] == r[mid + i + (|r| - |l|)];
    }
  }

  /** The used-up side was matched twice: prefix and suffix are too long for it. */
  predicate Doubled(l: seq<Segment>, r: seq<Segment>, w: Window) {
    && InRange(l, r, w)
    && RemL(l, w) == ""
    && |w.prefix| + |w.suffix| > |Join(l)|
    && (RemR(r, w) == "" <==> |r| == |l| + 1)
  }

  predicate NoEmpty(segs: seq<Segment>) {
    forall i :: 0 <= i < |segs| ==> segs[i].value != ""
  }

  lemma JoinNonEmpty(segs: seq<Segment>, i: nat, j: nat)
    requires NoEmpty(segs) && i < j <= |segs|
    ensures Join(segs[i..j]) != ""
  {
    assert segs[i..j][0] == segs[i];
  }

  lemma UsedUpIsSound(l: seq<Segment>, r: seq<Segment>, w: Window, mid: nat)
    requires |l| < |r| && 2 * mid == |l| && Halves(l, r, 0, |l|) && UsedUp(l, r, mid, w)
    ensures InRange(l, r, w) && Sound(l, r, w)
  {
    HalvesSlices(l, r, mid);
    assert l[mid..mid] == [];
    SoundFromCuts(l, r, w, mid, mid, mid, mid + (|r| - |l|));
  }

  lemma RematchIff(l: seq<Segment>, r: seq<Segment>, w: Window, mid: nat)
    requires |l| < |r| && 2 * mid == |l| && Halves(l, r, 0, |l|) && UsedUp(l, r, mid, w)
    ensures InRange(l, r, w)
    ensures Leftover(l, r, w) != w <==> MatchedTwice(l, r)
  {
  }

  lemma RematchIsDoubled(l: seq<Segment>, r: seq<Segment>, w: Window, mid: nat)
    requires NoEmpty(l) && NoEmpty(r)
    requires |l| < |r| && 2 * mid == |l| && UsedUp(l, r, mid, w) && InRange(l, r, w) && Leftover(l, r, w) != w
    ensures Doubled(l, r, Leftover(l, r, w))
  {
    var d := |r| - |l|;
    JoinThree(l, mid, mid);
    assert l[mid..mid] == [];
    if d > 1 {
      if l[mid] == r[mid + d - 1] {
        JoinNonEmpty(r, mid, mid + d - 1);
      } else {
        JoinNonEmpty(r, mid + 1, mid + d);
      }
    } else {
      assert r[mid..mid] == [];
    }
  }

  lemma RematchDoubles(l: seq<Segment>, r: seq<Segment>, w: Window, mid: nat)
    requires NoEmpty(l) && NoEmpty(r)
    requires |l| < |r| && 2 * mid == |l| && Halves(l, r, 0, |l|) && UsedUp(l, r, mid, w)
    ensures InRange(l, r, w)
    ensures Leftover(l, r, w) != w <==> MatchedTwice(l, r)
    ensures MatchedTwice(l, r) ==> Doubled(l, r, Leftover(l, r, w))
  {
    RematchIff(l, r, w, mid);
    if Leftover(l, r, w) != w {
      RematchIsDoubled(l, r, w, mid);
    }
  }

  // ----- trimming and fix-ups

  lemma TrimReconstructs(w: Window, remL: string, remR: string, textStart: bool, textEnd: bool)
    ensures var x := TextTrim(w, remL, remR, textStart, textEnd);
            && x.prefix + x.left + x.suffix == w.prefix + remL + w.suffix
            && x.prefix + x.right + x.suffix == w.prefix + remR + w.suffix
  {
    var (p, s) := SharedEnds(remL, remR, textStart, textEnd);
    CutsReconstruct(w, remL, remR, p, s);
  }

  lemma CutsReconstruct(w: Window, remL: string, remR: string, p: nat, s: nat)
    requires p + s <= |remL| && p + s <= |remR|
    requires remL[..p] == remR[..p] && remL[|remL| - s..] == remR[|remR| - s..]
    ensures var x := MoveOut(w, remL, remR, p, s);
            && x.prefix + x.left + x.suffix == w.prefix + remL + w.suffix
            && x.prefix + x.right + x.suffix == w.prefix + remR + w.suffix
  {
    Regroup(w.prefix, w.suffix, remL, p, |remL| - s);
    Regroup(w.prefix, w.suffix, remR, p, |remR| - s);
  }

  lemma Regroup(prefix: string, suffix: string, rem: string, p: nat, q: nat)
    requires p <= q <= |rem|
    ensures (prefix + rem[..p]) + rem[p..q] + (rem[q..] + suffix) == prefix + rem + suffix
  {
    assert rem == rem[..p] + rem[p..q] + rem[q..];
  }

  /** With an empty side there is nothing to trim. */
  lemma TrimEmpty(w: Window, remL: string, remR: string, textStart: bool, textEnd: bool)
    requires remL == "" || remR == ""
    ensures TextTrim(w, remL, remR, textStart, textEnd) == Split(w.prefix, w.suffix, remL, remR)
  {
    CommonSuffix(remL, remR);
    assert CommonSuffixLen(remL, remR) == 0;
    assert remL[..|remL|] == remL && remR[..|remR|] == remR;
    CommonPrefix(remL, remR);
    assert w.prefix + "" == w.prefix && "" + w.suffix == w.suffix;
  }

  lemma TrimmedEmpty(l: seq<Segment>, r: seq<Segment>, w: Window)
    requires InRange(l, r, w) && (RemL(l, w) == "" || RemR(r, w) == "")
    ensures Trimmed(l, r, w) == Split(w.prefix, w.suffix, RemL(l, w), RemR(r, w))
  {
    TrimEmpty(w, RemL(l, w), RemR(r, w),
      r[w.rs].kind.Text? && l[w.ls].kind.Text?, l[w.le].kind.Text? && r[w.re].kind.Text?);
  }

  lemma FixUpKeeps(left: string, right: string, x: Split)
    requires Reconstructs(x, left, right)
    ensures Reconstructs(FixUp(left, right, x), left, right)
  {
    if x.left == "" && x.right == "" {
      assert x.prefix + x.left + x.suffix == x.prefix + x.right + x.suffix;
      assert left + "" + "" == left;
    } else if x.left == "" && left <= right {
      assert left + "" + "" == left;
      assert left + right[|left|..] + "" == right;
    }
  }

  lemma FixUpOfDoubled(left: string, right: string, x: Split)
    requires x.left == "" && |x.prefix| + |x.suffix| > |left| && |left| < |right|
    ensures Reconstructs(FixUp(left, right, x), left, right) <==> x.right != "" && left <= right
  {
    assert left + "" + "" == left;
    if x.right == "" {
      assert FixUp(left, right, x) == Split(left, "", "", "");
    } else if left <= right {
      assert left + right[|left|..] + "" == right;
    } else {
      assert |x.prefix + x.left + x.suffix| > |left|;
    }
  }

  /** A doubled left side is lost, unless the last fix-up finds that left is a prefix of right. */
  lemma DoubledLeftFails(left: string, right: string, l: seq<Segment>, r: seq<Segment>, w: Window)
    requires Join(l) == left && Join(r) == right && |left| < |right| && Doubled(l, r, w)
    ensures Reconstructs(FixUp(left, right, Trimmed(l, r, w)), left, right) <==> |r| != |l| + 1 && left <= right
  {
    TrimmedEmpty(l, r, w);
    var x := Split(w.prefix, w.suffix, "", RemR(r, w));
    FixUpOfDoubled(left, right, x);
  }

  lemma DoubledRightFails(left: string, right: string, l: seq<Segment>, r: seq<Segment>, w: Window)
    requires Join(l) == left && Join(r) == right && |right| < |left|
    requires InRange(l, r, w) && Doubled(r, l, Swap(w))
    ensures !Reconstructs(FixUp(left, right, Trimmed(l, r, w)), left, right)
  {
    TrimmedEmpty(l, r, w);
    var x := Split(w.prefix, w.suffix, RemL(l, w), "");
    if x.left == "" {
      assert FixUp(left, right, x) == Split(left, "", "", "");
    } else {
      assert FixUp(left, right, x) == x;
      assert |x.prefix + x.right + x.suffix| > |right|;
    }
  }

  // ----- main results

  lemma StartAligned(l: seq<Segment>, r: seq<Segment>)
    requires 0 < |l| <= |r|
    ensures Aligned(l, r, Start(l, r))
  {
    assert l[..0] == [] && l[|l|..] == [];
  }

  /** The windows after the loop and the leftover step. */
  function Final(l: seq<Segment>, r: seq<Segment>): (w: Window)
    requires l != [] && r != []
    ensures InRange(l, r, w)
  {
    Leftover(l, r, Match(l, r, Start(l, r)))
  }

  lemma HalvesSame(l: seq<Segment>, r: seq<Segment>)
    requires |l| == |r| && Halves(l, r, 0, |l|)
    ensures l == r
  {
    forall i | 0 <= i < |l|
      ensures l[i] == r[i]
    {
    }
  }

  lemma UsedUpLeavesNothing(l: seq<Segment>, r: seq<Segment>, w: Window, mid: nat)
    requires |l| == |r| && UsedUp(l, r, mid, w)
    ensures RemL(l, Leftover(l, r, w)) == "" == RemR(r, Leftover(l, r, w))
  {
  }

  /** Two equally long sides: either everything was matched once, or the sides are the same. */
  lemma EqualLengths(l: seq<Segment>, r: seq<Segment>)
    requires 0 < |l| == |r|
    ensures Sound(l, r, Final(l, r)) || (l == r && RemL(l, Final(l, r)) == "" == RemR(r, Final(l, r)))
  {
    StartAligned(l, r);
    var w := Start(l, r);
    if Halves(l, r, 0, |l|) {
      MatchUsesUp(l, r, w, |l| / 2);
      UsedUpLeavesNothing(l, r, Match(l, r, w), |l| / 2);
      HalvesSame(l, r);
    } else {
      MatchStops(l, r, w);
      LeftoverKeepsSound(l, r, Match(l, r, w));
    }
  }

  /** A shorter side: either everything was matched once, or its middle was matched twice. */
  lemma ShorterSide(l: seq<Segment>, r: seq<Segment>)
    requires 0 < |l| < |r| && NoEmpty(l) && NoEmpty(r)
    ensures if MatchedTwice(l, r) then Doubled(l, r, Final(l, r)) else Sound(l, r, Final(l, r))
  {
    StartAligned(l, r);
    var w := Start(l, r);
    if Halves(l, r, 0, |l|) {
      var mid := |l| / 2;
      MatchUsesUp(l, r, w, mid);
      RematchDoubles(l, r, Match(l, r, w), mid);
      UsedUpIsSound(l, r, Match(l, r, w), mid);
    } else {
      MatchStops(l, r, w);
      LeftoverKeepsSound(l, r, Match(l, r, w));
    }
  }

  lemma FinalSwaps(l: seq<Segment>, r: seq<Segment>)
    requires l != [] && r != []
    ensures Final(r, l) == Swap(Final(l, r))
  {
    MatchSwaps(l, r, Start(l, r));
    LeftoverSwaps(l, r, Match(l, r, Start(l, r)));
  }

  lemma LongerSide(l: seq<Segment>, r: seq<Segment>)
    requires 0 < |r| < |l| && NoEmpty(l) && NoEmpty(r)
    ensures if MatchedTwice(r, l) then Doubled(r, l, Swap(Final(l, r))) else Sound(l, r, Final(l, r))
  {
    ShorterSide(r, l);
    FinalSwaps(l, r);
  }

  lemma SoundReconstructs(left: string, right: string, l: seq<Segment>, r: seq<Segment>, w: Window)
    requires Join(l) == left && Join(r) == right && InRange(l, r, w) && Sound(l, r, w)
    ensures Reconstructs(FixUp(left, right, Trimmed(l, r, w)), left, right)
  {
    TrimReconstructs(w, RemL(l, w), RemR(r, w),
      r[w.rs].kind.Text? && l[w.ls].kind.Text?, l[w.le].kind.Text? && r[w.re].kind.Text?);
    FixUpKeeps(left, right, Trimmed(l, r, w));
  }

  lemma NoDifference(text: string, x: Split)
    requires x.left == "" == x.right
    ensures Reconstructs(FixUp(text, text, x), text, text)
  {
    var y := FixUp(text, text, x);
    assert y.prefix == text && y.suffix == "" && y.left == "" && y.right == "";
  }

  lemma SameReconstructs(text: string, l: seq<Segment>, w: Window)
    requires Join(l) == text && InRange(l, l, w) && RemL(l, w) == "" == RemR(l, w)
    ensures Reconstructs(FixUp(text, text, Trimmed(l, l, w)), text, text)
  {
    TrimmedEmpty(l, l, w);
    NoDifference(text, Trimmed(l, l, w));
  }

  lemma SegmentsAreGood(text: string)
    ensures Join(SegmentsOf(text)) == text && NoEmpty(SegmentsOf(text))
    ensures SegmentsOf(text) == [] <==> text == ""
  {
    SegmentsLossless(text, 0);
    assert text[0..] == text;
    var g := SegmentsOf(text);
    forall i | 0 <= i < |g| ensures g[i].value != "" { assert g[i] in g; }
  }

  /** For every two texts, the split can be put back together exactly when no middle segment was matched
      twice. */
  lemma DiffSplitReconstructsIff(left: string, right: string)
    ensures Reconstructs(DiffSplit(left, right), left, right) <==> !Misaligned(left, right)
  {
    var l, r := SegmentsOf(left), SegmentsOf(right);
    SegmentsAreGood(left);
    SegmentsAreGood(right);
    if l == [] || r == [] {
      EmptySide(left, right);
    } else if |l| == |r| {
      EqualLengths(l, r);
      if Sound(l, r, Final(l, r)) {
        SoundReconstructs(left, right, l, r, Final(l, r));
      } else {
        SameReconstructs(left, l, Final(l, r));
      }
    } else if |l| < |r| {
      LeftShorter(left, right);
    } else {
      RightShorter(left, right);
    }
  }

  lemma EmptySide(left: string, right: string)
    requires SegmentsOf(left) == [] || SegmentsOf(right) == []
    ensures Reconstructs(DiffSplit(left, right), left, right) && !Misaligned(left, right)
  {
    SegmentsAreGood(left);
    SegmentsAreGood(right);
    assert "" + left + "" == left && "" + right + "" == right;
  }

  lemma LeftShorter(left: string, right: string)
    requires 0 < |SegmentsOf(left)| < |SegmentsOf(right)|
    ensures Reconstructs(DiffSplit(left, right), left, right) <==> !Misaligned(left, right)
  {
    var l, r := SegmentsOf(left), SegmentsOf(right);
    SegmentsAreGood(left);
    SegmentsAreGood(right);
    ShorterSide(l, r);
    if MatchedTwice(l, r) {
      TwiceIsShorter(l, r);
      DoubledLeftFails(left, right, l, r, Final(l, r));
    } else {
      SoundReconstructs(left, right, l, r, Final(l, r));
    }
  }

  lemma RightShorter(left: string, right: string)
    requires 0 < |SegmentsOf(right)| < |SegmentsOf(left)|
    ensures Reconstructs(DiffSplit(left, right), left, right) <==> !Misaligned(left, right)
  {
    var l, r := SegmentsOf(left), SegmentsOf(right);
    SegmentsAreGood(left);
    SegmentsAreGood(right);
    LongerSide(l, r);
    if MatchedTwice(r, l) {
      TwiceIsShorter(r, l);
      DoubledRightFails(left, right, l, r, Final(l, r));
    } else {
      SoundReconstructs(left, right, l, r, Final(l, r));
    }
  }

  /** A side that splits into halves of the other has less text. */
  lemma JoinLonger(a: seq<Segment>, m: seq<Segment>, b: seq<Segment>)
    requires Join(m) != ""
    ensures |Join(a + b)| < |Join(a + m + b)|
  {
    JoinConcat(a, b);
    JoinConcat(a, m);
    JoinConcat(a + m, b);
  }

  lemma LongerInside(l: seq<Segment>, r: seq<Segment>, mid: nat, d: nat)
    requires mid <= |l| && d > 0 && |r| == |l| + d && NoEmpty(r)
    requires l[..mid] == r[..mid] && l[mid..] == r[mid + d..]
    ensures |Join(l)| < |Join(r)|
  {
    JoinNonEmpty(r, mid, mid + d);
    Cut(l, mid, mid);
    assert l[mid..mid] == [] && l[..mid] + [] == l[..mid];
    Cut(r, mid, mid + d);
    JoinLonger(l[..mid], r[mid..mid + d], l[mid..]);
  }

  lemma TwiceIsShorter(l: seq<Segment>, r: seq<Segment>)
    requires MatchedTwice(l, r) && NoEmpty(r)
    ensures |Join(l)| < |Join(r)|
  {
    HalvesSlices(l, r, |l| / 2);
    LongerInside(l, r, |l| / 2, |r| - |l|);
  }

  predicate NoRepeats(segs: seq<Segment>) {
    forall i, j :: 0 <= i < j < |segs| ==> segs[i] != segs[j]
  }

  /** In particular, texts in which no segment repeats always split correctly. */
  lemma NoRepeatsReconstructs(left: string, right: string)
    requires NoRepeats(SegmentsOf(left)) && NoRepeats(SegmentsOf(right))
    ensures Reconstructs(DiffSplit(left, right), left, right)
  {
    NoRepeatsNotTwice(SegmentsOf(left), SegmentsOf(right));
    NoRepeatsNotTwice(SegmentsOf(right), SegmentsOf(left));
    DiffSplitReconstructsIff(left, right);
  }

  lemma NoRepeatsNotTwice(l: seq<Segment>, r: seq<Segment>)
    requires NoRepeats(r)
    ensures !MatchedTwice(l, r)
  {
    if 0 < |l| < |r| && Halves(l, r, 0, |l|) {
      var mid, d := |l| / 2, |r| - |l|;
      assert l[mid] == r[mid + d];
    }
  }

  /** The segments of a side that went neither to the prefix nor to the suffix. */
  function Rest(segs: seq<Segment>, start: nat, end: nat, done: bool): seq<Segment>
    requires start <= end < |segs|
  {
    if done then segs[start..end] else segs[start..end + 1]
  }

  /** Nothing that could have been matched was left over: a side is used up, or the sides differ in their first
      and in their last segment, or all that is left is one text, which is then compared by characters. */
  predicate NothingLeft(a: seq<Segment>, b: seq<Segment>) {
    || a == [] || b == []
    || (a[0] != b[0] && a[|a| - 1] != b[|b| - 1])
    || (a == b && |a| == 1 && a[0].kind.Text?)
  }

  predicate LeavesNothing(l: seq<Segment>, r: seq<Segment>, w: Window)
    requires InRange(l, r, w)
  {
    NothingLeft(Rest(l, w.ls, w.le, w.lDone), Rest(r, w.rs, w.re, w.rDone))
  }

  lemma NothingLeftSwaps(a: seq<Segment>, b: seq<Segment>)
    requires NothingLeft(a, b)
    ensures NothingLeft(b, a)
  {
  }

  lemma LeavesSwaps(l: seq<Segment>, r: seq<Segment>, w: Window)
    requires InRange(l, r, w) && LeavesNothing(r, l, Swap(w))
    ensures LeavesNothing(l, r, w)
  {
    NothingLeftSwaps(Rest(r, w.rs, w.re, w.rDone), Rest(l, w.ls, w.le, w.lDone));
  }

  lemma LeftIsLast(l: seq<Segment>, r: seq<Segment>, w: Window)
    requires InRange(l, r, w) && w.ls == w.le && w.rs != w.re && !w.lDone && !w.rDone
    ensures LeavesNothing(l, r, Leftover(l, r, w))
  {
    assert l[w.ls..w.ls] == [] && l[w.ls..w.ls + 1] == [l[w.ls]];
  }

  lemma LeftoverIsFinal(l: seq<Segment>, r: seq<Segment>, w: Window)
    requires InRange(l, r, w) && Stopped(l, r, w) && !w.lDone && !w.rDone
    ensures LeavesNothing(l, r, Leftover(l, r, w))
  {
    if w.ls == w.le && w.rs != w.re {
      LeftIsLast(l, r, w);
    } else if w.rs == w.re && w.ls != w.le {
      LeftIsLast(r, l, Swap(w));
      LeftoverSwaps(l, r, w);
      LeavesSwaps(l, r, Leftover(l, r, w));
    }
  }

  lemma UsedUpIsFinal(l: seq<Segment>, r: seq<Segment>, w: Window, mid: nat)
    requires |l| <= |r| && InRange(l, r, w) && UsedUp(l, r, mid, w)
    ensures var v := Leftover(l, r, w); Rest(l, v.ls, v.le, v.lDone) == []
  {
  }

  lemma ShorterSideNothingLeft(l: seq<Segment>, r: seq<Segment>)
    requires 0 < |l| <= |r|
    ensures LeavesNothing(l, r, Final(l, r))
  {
    StartAligned(l, r);
    var w := Start(l, r);
    if Halves(l, r, 0, |l|) {
      MatchUsesUp(l, r, w, |l| / 2);
      UsedUpIsFinal(l, r, Match(l, r, w), |l| / 2);
    } else {
      MatchStops(l, r, w);
      LeftoverIsFinal(l, r, Match(l, r, w));
    }
  }

  lemma NothingLeftToMatch(l: seq<Segment>, r: seq<Segment>)
    requires l != [] && r != []
    ensures LeavesNothing(l, r, Final(l, r))
  {
    if |l| <= |r| {
      ShorterSideNothingLeft(l, r);
    } else {
      ShorterSideNothingLeft(r, l);
      FinalSwaps(l, r);
      LeavesSwaps(l, r, Final(l, r));
    }
  }

  lemma ExampleSegments()
    ensures SegmentsOf("<a><b>") == [Segment(Marker, "<a>"), Segment(Marker, "<b>")]
    ensures SegmentsOf("<a><b><b>") == [Segment(Marker, "<a>"), Segment(Marker, "<b>"), Segment(Marker, "<b>")]
  {
    var x, y := "<a><b>", "<a><b><b>";
    FindIs(x, CloserOf('<'), 0, 2);
    FindIs(x, CloserOf('<'), 3, 5);
    FindIs(y, CloserOf('<'), 0, 2);
    FindIs(y, CloserOf('<'), 3, 5);
    FindIs(y, CloserOf('<'), 6, 8);
    assert x[0..3] == "<a>" && x[3..6] == "<b>";
    assert y[0..3] == "<a>" && y[3..6] == "<b>" && y[6..9] == "<b>";
    assert SegmentsFrom(x, 6) == [] && SegmentsFrom(y, 9) == [];
    assert SegmentsFrom(x, 3) == [Segment(Marker, "<b>")];
    assert SegmentsFrom(y, 6) == [Segment(Marker, "<b>")];
    assert SegmentsFrom(y, 3) == [Segment(Marker, "<b>"), Segment(Marker, "<b>")];
  }

  /** The extra marker of the right side is lost. */
  lemma RepeatedMarkerIsLost()
    ensures !Reconstructs(DiffSplit("<a><b>", "<a><b><b>"), "<a><b>", "<a><b><b>")
  {
    ExampleSegments();
    var l, r := SegmentsOf("<a><b>"), SegmentsOf("<a><b><b>");
    assert Halves(l, r, 0, 2);
    assert MatchedTwice(l, r);
    DiffSplitReconstructsIff("<a><b>", "<a><b><b>");
  }
}
