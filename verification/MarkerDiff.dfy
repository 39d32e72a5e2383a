/** The marker-aware diff of two texts (common/chat-auto-parser-helpers.cpp): common prefix, common
    suffix, and what is left of each side, aligned on markers. */
module MarkerDiff {
  import opened Segments

  datatype Split = Split(prefix: string, suffix: string, left: string, right: string)

  /** The cursors of the matching loop, the matched text, and whether a side's last segment was used up. */
  datatype Window = Window(ls: nat, le: nat, rs: nat, re: nat, lDone: bool, rDone: bool,
                           prefix: string, suffix: string)

  predicate InRange(l: seq<Segment>, r: seq<Segment>, w: Window) {
    w.ls <= w.le < |l| && w.rs <= w.re < |r|
  }

  // ----- the matching loop

  function PrefixStep(l: seq<Segment>, r: seq<Segment>, w: Window): (w': Window)
    requires InRange(l, r, w) && w.ls != w.le && w.rs != w.re
    ensures InRange(l, r, w')
  {
    if l[w.ls] == r[w.rs] then w.(prefix := w.prefix + l[w.ls].value, ls := w.ls + 1, rs := w.rs + 1) else w
  }

  function SuffixStep(l: seq<Segment>, r: seq<Segment>, w: Window): (w': Window)
    requires InRange(l, r, w)
    ensures InRange(l, r, w')
  {
    if l[w.le] == r[w.re] then
      w.(suffix := l[w.le].value + w.suffix,
         le := if w.ls != w.le then w.le - 1 else w.le,
         lDone := w.lDone || w.ls == w.le,
         re := if w.rs != w.re then w.re - 1 else w.re,
         rDone := w.rDone || w.rs == w.re)
    else w
  }

  predicate Advances(l: seq<Segment>, r: seq<Segment>, w: Window)
    requires InRange(l, r, w) && w.ls != w.le && w.rs != w.re
  {
    l[w.ls] == r[w.rs] || l[w.le] == r[w.re]
  }

  function Match(l: seq<Segment>, r: seq<Segment>, w: Window): (w': Window)
    requires InRange(l, r, w)
    ensures InRange(l, r, w')
    decreases w.le - w.ls
  {
    if w.ls == w.le || w.rs == w.re || !Advances(l, r, w) then w
    else Match(l, r, SuffixStep(l, r, PrefixStep(l, r, w)))
  }

  // ----- after the loop

  /** The three branches for a side that is down to one segment. */
  function Leftover(l: seq<Segment>, r: seq<Segment>, w: Window): (w': Window)
    requires InRange(l, r, w)
    ensures InRange(l, r, w')
  {
    if w.ls == w.le && w.rs != w.re then
      if l[w.ls] == r[w.re] then w.(suffix := r[w.re].value + w.suffix, re := w.re - 1, lDone := true)
      else if l[w.ls] == r[w.rs] then w.(prefix := w.prefix + r[w.rs].value, rs := w.rs + 1, lDone := true)
      else w
    else if w.rs == w.re && w.ls != w.le then
      if l[w.le] == r[w.rs] then w.(suffix := l[w.le].value + w.suffix, le := w.le - 1, rDone := true)
      else if l[w.ls] == r[w.rs] then w.(prefix := w.prefix + l[w.ls].value, ls := w.ls + 1, rDone := true)
      else w
    else if w.ls == w.le && w.rs == w.re && l[w.ls] == r[w.rs] && l[w.ls].kind.Marker? then
      w.(prefix := w.prefix + r[w.rs].value, lDone := true, rDone := true)
    else w
  }

  function Remainder(segs: seq<Segment>, start: nat, end: nat, done: bool): string
    requires start <= end < |segs|
  {
    Join(if done then segs[start..end] else segs[start..end + 1])
  }

  /** How far `a` and `b` agree, given that they agree on the first `n` characters. */
  function PrefixLenFrom(a: string, b: string, n: nat): (k: nat)
    requires n <= |a| && n <= |b|
    ensures n <= k <= |a| && k <= |b|
    ensures forall i :: n <= i < k ==> a[i] == b[i]
    ensures k < |a| && k < |b| ==> a[k] != b[k]
    decreases |a| - n
  {
    if n < |a| && n < |b| && a[n] == b[n] then PrefixLenFrom(a, b, n + 1) else n
  }

  function CommonPrefixLen(a: string, b: string): nat {
    PrefixLenFrom(a, b, 0)
  }

  function Reverse(s: string): (r: string)
    ensures |r| == |s| && forall i :: 0 <= i < |s| ==> r[i] == s[|s| - 1 - i]
  {
    seq(|s|, i requires 0 <= i < |s| => s[|s| - 1 - i])
  }

  function CommonSuffixLen(a: string, b: string): nat {
    CommonPrefixLen(Reverse(a), Reverse(b))
  }

  lemma CommonPrefix(a: string, b: string)
    ensures var k := CommonPrefixLen(a, b);
            && k <= |a| && k <= |b| && a[..k] == b[..k]
            && (k < |a| && k < |b| ==> a[k] != b[k])
  {
  }

  lemma CommonSuffix(a: string, b: string)
    ensures var k := CommonSuffixLen(a, b);
            && k <= |a| && k <= |b| && a[|a| - k..] == b[|b| - k..]
            && (k < |a| && k < |b| ==> a[|a| - 1 - k] != b[|b| - 1 - k])
  {
    var k := CommonSuffixLen(a, b);
    var ra, rb := Reverse(a), Reverse(b);
    assert ra[..k] == rb[..k];
    assert a[|a| - k..] == Reverse(ra[..k]) && b[|b| - k..] == Reverse(rb[..k]);
  }

  /** How much the two remainders share at their ends, counted at text ends only. */
  function SharedEnds(remL: string, remR: string, textStart: bool, textEnd: bool): (r: (nat, nat))
    ensures r.0 + r.1 <= |remL| && r.0 + r.1 <= |remR|
    ensures remL[..r.0] == remR[..r.0] && remL[|remL| - r.1..] == remR[|remR| - r.1..]
  {
    CommonSuffix(remL, remR);
    var s := if textEnd then CommonSuffixLen(remL, remR) else 0;
    var a, b := remL[..|remL| - s], remR[..|remR| - s];
    CommonPrefix(a, b);
    var p := if textStart then CommonPrefixLen(a, b) else 0;
    assert a[..p] == remL[..p] && b[..p] == remR[..p];
    (p, s)
  }

  /** Moves what the two remainders share, at text ends only, to the prefix and the suffix. */
  function TextTrim(w: Window, remL: string, remR: string, textStart: bool, textEnd: bool): Split {
    var (p, s) := SharedEnds(remL, remR, textStart, textEnd);
    MoveOut(w, remL, remR, p, s)
  }

  /** The first `p` and the last `s` characters go to the prefix and the suffix. */
  function MoveOut(w: Window, remL: string, remR: string, p: nat, s: nat): Split
    requires p + s <= |remL| && p + s <= |remR|
  {
    Split(w.prefix + remL[..p], remL[|remL| - s..] + w.suffix, remL[p..|remL| - s], remR[p..|remR| - s])
  }

  /** No difference at all, and a left side that is wholly a prefix of the right, are given a fixed form. */
  function FixUp(left: string, right: string, x: Split): Split {
    var x1 := if x.left == "" && x.right == "" then x.(prefix := left, suffix := "") else x;
    if x1.left == "" && x1.right != "" && left <= right then Split(left, "", x1.left, right[|left|..]) else x1
  }

  function Start(l: seq<Segment>, r: seq<Segment>): Window
    requires l != [] && r != []
  {
    Window(0, |l| - 1, 0, |r| - 1, false, false, "", "")
  }

  function Trimmed(l: seq<Segment>, r: seq<Segment>, w: Window): Split
    requires InRange(l, r, w)
  {
    TextTrim(w, Remainder(l, w.ls, w.le, w.lDone), Remainder(r, w.rs, w.re, w.rDone),
      r[w.rs].kind.Text? && l[w.ls].kind.Text?, l[w.le].kind.Text? && r[w.re].kind.Text?)
  }

  function DiffSplit(left: string, right: string): Split {
    var l, r := SegmentsOf(left), SegmentsOf(right);
    if l == [] then Split("", "", "", right)
    else if r == [] then Split("", "", left, "")
    else FixUp(left, right, Trimmed(l, r, Leftover(l, r, Match(l, r, Start(l, r)))))
  }

  // ----- the code as written

  method ComputePrefixLen(a: string, b: string) returns (n: nat)
    ensures n == CommonPrefixLen(a, b)
  {
    n := 0;
    var m := if |a| <= |b| then |a| else |b|;
    while n < m && a[n] == b[n]
      invariant n <= m
      invariant CommonPrefixLen(a, b) == PrefixLenFrom(a, b, n)
    {
      n := n + 1;
    }
  }

  method ComputeSuffixLen(a: string, b: string) returns (n: nat)
    ensures n == CommonSuffixLen(a, b)
  {
    n := 0;
    var m := if |a| <= |b| then |a| else |b|;
    ghost var ra, rb := Reverse(a), Reverse(b);
    while n < m && a[|a| - 1 - n] == b[|b| - 1 - n]
      invariant n <= m
      invariant CommonSuffixLen(a, b) == PrefixLenFrom(ra, rb, n)
    {
      assert ra[n] == rb[n];
      n := n + 1;
    }
    assert n < m ==> ra[n] != rb[n];
  }

  method MatchSegments(l: seq<Segment>, r: seq<Segment>) returns (w: Window)
    requires l != [] && r != []
    ensures w == Match(l, r, Start(l, r))
  {
    var ls, le, rs, re := 0, |l| - 1, 0, |r| - 1;
    var lDone, rDone := false, false;
    var prefix, suffix := "", "";
    while ls != le && rs != re
      invariant ls <= le < |l| && rs <= re < |r|
      invariant Match(l, r, Window(ls, le, rs, re, lDone, rDone, prefix, suffix)) == Match(l, r, Start(l, r))
      decreases le - ls
    {
      ghost var w0 := Window(ls, le, rs, re, lDone, rDone, prefix, suffix);
      var advanced := false;
      if l[ls] == r[rs] {
        prefix := prefix + l[ls].value;
        ls, rs := ls + 1, rs + 1;
        advanced := true;
      }
      ghost var w1 := Window(ls, le, rs, re, lDone, rDone, prefix, suffix);
      assert w1 == PrefixStep(l, r, w0);
      if l[le] == r[re] {
        suffix := l[le].value + suffix;
        if ls != le {
          le := le - 1;
        } else {
          lDone := true;
        }
        if rs != re {
          re := re - 1;
        } else {
          rDone := true;
        }
        advanced := true;
      }
      assert Window(ls, le, rs, re, lDone, rDone, prefix, suffix) == SuffixStep(l, r, w1);
      assert advanced == Advances(l, r, w0);
      if !advanced {
        break;
      }
    }
    w := Window(ls, le, rs, re, lDone, rDone, prefix, suffix);
  }

  method ConcatSegments(segs: seq<Segment>) returns (s: string)
    ensures s == Join(segs)
  {
    s := "";
    for i := 0 to |segs|
      invariant s == Join(segs[..i])
    {
      JoinConcat(segs[..i], [segs[i]]);
      JoinOne(segs[i]);
      assert segs[..i + 1] == segs[..i] + [segs[i]];
      s := s + segs[i].value;
    }
    assert segs[..|segs|] == segs;
  }

  method MatchLeftover(l: seq<Segment>, r: seq<Segment>, w0: Window) returns (w: Window)
    requires InRange(l, r, w0)
    ensures w == Leftover(l, r, w0)
  {
    w := w0;
    if w.ls == w.le && w.rs != w.re {
      if l[w.ls] == r[w.re] {
        w := w.(suffix := r[w.re].value + w.suffix, re := w.re - 1, lDone := true);
      } else if l[w.ls] == r[w.rs] {
        w := w.(prefix := w.prefix + r[w.rs].value, rs := w.rs + 1, lDone := true);
      }
    } else if w.rs == w.re && w.ls != w.le {
      if l[w.le] == r[w.rs] {
        w := w.(suffix := l[w.le].value + w.suffix, le := w.le - 1, rDone := true);
      } else if l[w.ls] == r[w.rs] {
        w := w.(prefix := w.prefix + l[w.ls].value, ls := w.ls + 1, rDone := true);
      }
    } else if w.ls == w.le && w.rs == w.re && l[w.ls] == r[w.rs] && l[w.ls].kind.Marker? {
      w := w.(prefix := w.prefix + r[w.rs].value, lDone := true, rDone := true);
    }
  }

  method CountSharedEnds(remL: string, remR: string, textStart: bool, textEnd: bool) returns (p: nat, s: nat)
    ensures (p, s) == SharedEnds(remL, remR, textStart, textEnd)
  {
    p, s := 0, 0;
    if textEnd {
      s := ComputeSuffixLen(remL, remR);
    }
    CommonSuffix(remL, remR);
    if textStart {
      p := ComputePrefixLen(remL[..|remL| - s], remR[..|remR| - s]);
    }
  }

  method TrimText(w: Window, remL: string, remR: string, textStart: bool, textEnd: bool) returns (x: Split)
    ensures x == TextTrim(w, remL, remR, textStart, textEnd)
  {
    var p, s := CountSharedEnds(remL, remR, textStart, textEnd);
    x := MoveOut(w, remL, remR, p, s);
  }

  method TrimRemainders(l: seq<Segment>, r: seq<Segment>, w: Window) returns (x: Split)
    requires InRange(l, r, w)
    ensures x == Trimmed(l, r, w)
  {
    var textEnd := l[w.le].kind.Text? && r[w.re].kind.Text?;
    var textStart := r[w.rs].kind.Text? && l[w.ls].kind.Text?;
    var remL := ConcatSegments(if w.lDone then l[w.ls..w.le] else l[w.ls..w.le + 1]);
    var remR := ConcatSegments(if w.rDone then r[w.rs..w.re] else r[w.rs..w.re + 1]);
    x := TrimText(w, remL, remR, textStart, textEnd);
  }

  method FixUpResult(left: string, right: string, x: Split) returns (result: Split)
    ensures result == FixUp(left, right, x)
  {
    result := x;
    if result.left == "" && result.right == "" {
      result := result.(prefix := left, suffix := "");
    }
    if result.left == "" && result.right != "" && |left| <= |right| && right[..|left|] == left {
      result := result.(prefix := left, suffix := "", right := right[|left|..]);
    }
  }

  method CalculateDiffSplit(left: string, right: string) returns (result: Split)
    ensures result == DiffSplit(left, right)
  {
    var l := SegmentizeMarkers(left);
    var r := SegmentizeMarkers(right);
    if l == [] {
      return Split("", "", "", right);
    }
    if r == [] {
      return Split("", "", left, "");
    }
    var matched := MatchSegments(l, r);
    var w := MatchLeftover(l, r, matched);
    var trimmed := TrimRemainders(l, r, w);
    result := FixUpResult(left, right, trimmed);
  }
}
