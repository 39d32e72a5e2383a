/** Holding back output that may be the beginning of a stop word (common/common.h). */
module PartialStop {

  datatype Index = NotFound | At(pos: nat)

  predicate EndsWith(s: string, suffix: string) {
    |s| >= |suffix| && s[|s| - |suffix|..] == suffix
  }

  /** The last `len` characters of `s` are the first `len` of `stop`. */
  predicate Overlaps(s: string, stop: string, len: nat) {
    0 < len <= |s| && len <= |stop| && s[|s| - len..] == stop[..len]
  }

  /** `stop` stands in `s` at position `i`. */
  predicate Occurs(s: string, stop: string, i: nat) {
    i + |stop| <= |s| && s[i..i + |stop|] == stop
  }

  /** `r` is the start of the longest end of `s` that begins `stop`, if there is one. */
  ghost predicate IsPartialStop(s: string, stop: string, r: Index) {
    && (r.At? ==> r.pos < |s| && Overlaps(s, stop, |s| - r.pos)
                  && forall len: nat :: Overlaps(s, stop, len) ==> len <= |s| - r.pos)
    && (r.NotFound? ==> forall len: nat :: !Overlaps(s, stop, len))
  }

  /** The loop as written: candidate lengths from long to short, with a quick test of the last character. */
  method FindPartialStop(s: string, stop: string) returns (r: Index)
    ensures IsPartialStop(s, stop, r)
  {
    if s != "" && stop != "" {
      var max := if |s| <= |stop| then |s| else |stop|;
      var last := s[|s| - 1];
      for len := max downto 0
        invariant forall n: nat :: Overlaps(s, stop, n) ==> n <= len
      {
        var n := len + 1;
        if stop[n - 1] == last {
          if EndsWith(s, stop[..n]) {
            assert Overlaps(s, stop, n);
            return At(|s| - n);
          }
        } else {
          LastDiffers(s, stop, n);
        }
        assert !Overlaps(s, stop, n);
      }
    }
    r := NotFound;
  }

  lemma LastDiffers(s: string, stop: string, n: nat)
    requires 0 < n <= |s| && n <= |stop| && stop[n - 1] != s[|s| - 1]
    ensures !Overlaps(s, stop, n)
  {
    assert s[|s| - n..][n - 1] == s[|s| - 1] && stop[..n][n - 1] == stop[n - 1];
  }

  /** Where output may be sent up to. */
  function SafeUpTo(s: string, r: Index): nat {
    if r.At? then r.pos else |s|
  }

  lemma OccursEarlier(s: string, more: string, stop: string, i: nat)
    requires Occurs(s + more, stop, i)
    ensures i + |stop| <= |s| ==> Occurs(s, stop, i)
  {
    if i + |stop| <= |s| {
      assert (s + more)[i..i + |stop|] == s[i..i + |stop|];
    }
  }

  /** If `stop` is not in `s`, then however the text goes on, `stop` never begins before the returned
      index: everything before it can be sent. */
  lemma NothingSentTooEarly(s: string, stop: string, r: Index, more: string, i: nat)
    requires stop != "" && IsPartialStop(s, stop, r) && (forall j :: !Occurs(s, stop, j))
    requires Occurs(s + more, stop, i)
    ensures i >= SafeUpTo(s, r)
  {
    if i < |s| < i + |stop| {
      var len := |s| - i;
      assert s[i..] == (s + more)[i..i + |stop|][..len] == stop[..len];
      assert Overlaps(s, stop, len);
    } else if i < |s| {
      OccursEarlier(s, more, stop, i);
    }
  }

  /** And nothing is held back without need: some continuation puts `stop` exactly there. */
  lemma HeldBackForAReason(s: string, stop: string, r: Index)
    requires r.At? && IsPartialStop(s, stop, r)
    ensures Occurs(s + stop[|s| - r.pos..], stop, r.pos)
  {
    var len := |s| - r.pos;
    var t := s + stop[len..];
    assert t[r.pos..r.pos + |stop|] == s[r.pos..] + stop[len..];
    assert s[r.pos..] == stop[..len];
  }
}
