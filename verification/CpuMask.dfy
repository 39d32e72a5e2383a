/** The hexadecimal CPU mask (common/common.cpp). */
module CpuMask {
  import opened Hex
  import opened Arithmetic

  const MAX_THREADS := 512

  /** The digits that count: after an optional `0x`, at most 128. */
  function Digits(mask: string): string {
    var rest := if |mask| >= 2 && mask[..2] == "0x" then mask[2..] else mask;
    if |rest| > 128 then rest[..128] else rest
  }

  predicate AllHex(s: string) {
    forall i :: 0 <= i < |s| ==> IsHex(s[i])
  }

  /** The number a string of hexadecimal digits denotes. */
  function Number(s: string): nat
    requires AllHex(s)
  {
    if s == "" then 0 else Number(s[..|s| - 1]) * 16 + HexValue(s[|s| - 1])
  }

  function Pow2(k: nat): (p: nat)
    ensures p > 0
  {
    if k == 0 then 1 else 2 * Pow2(k - 1)
  }

  /** Bit `k` of a number. */
  predicate Bit(n: nat, k: nat) {
    n / Pow2(k) % 2 == 1
  }

  /** Bit `k` of the number is bit `k % 4` of the digit it falls in. */
  predicate DigitBit(s: string, k: nat)
    requires AllHex(s)
  {
    k / 4 < |s| && Bit(HexValue(s[|s| - 1 - k / 4]), k % 4)
  }

  lemma Pow2Plus4(k: nat)
    ensures Pow2(k + 4) == 16 * Pow2(k)
  {
    assert Pow2(k + 4) == 2 * Pow2(k + 3) && Pow2(k + 3) == 2 * Pow2(k + 2) && Pow2(k + 2) == 2 * Pow2(k + 1);
  }

  lemma DivShift(q: nat, d: nat, p: nat)
    requires d < 16 && p > 0
    ensures (q * 16 + d) / (16 * p) == q / p
  {
    var r := q % p;
    assert q == q / p * p + r;
    assert q * 16 + d == (q / p) * (16 * p) + (16 * r + d);
    assert 0 <= 16 * r + d < 16 * p;
    DivUnique(q * 16 + d, 16 * p, q / p, 16 * r + d);
  }

  lemma EvenPlus(a: nat, b: nat)
    ensures (2 * a + b) % 2 == b % 2
  {
  }

  /** A bit of the digit `d`, of weight `m`, survives a multiple of sixteen. */
  lemma BitUnder(q: nat, d: nat, m: nat, half: nat)
    requires m > 0 && 16 == m * (2 * half)
    ensures (q * 16 + d) / m % 2 == d / m % 2
  {
    var c := d / m;
    Scaled(q, d, m, 2 * half, c, d % m);
    DivUnique(q * 16 + d, m, q * (2 * half) + c, d % m);
    EvenFactor(q, half, c);
  }

  lemma EvenFactor(q: nat, half: nat, c: nat)
    ensures (q * (2 * half) + c) % 2 == c % 2
  {
    assert q * (2 * half) == 2 * (q * half);
    EvenPlus(q * half, c);
  }

  lemma Scaled(q: nat, d: nat, m: nat, k: nat, c: nat, r: nat)
    requires 16 == m * k && d == c * m + r
    ensures q * 16 + d == (q * k + c) * m + r
  {
    assert q * 16 == q * (m * k);
    assert q * (m * k) == (q * k) * m;
  }

  /** Low bits come from the last digit. */
  lemma LowBit(q: nat, d: nat, k: nat)
    requires d < 16 && k < 4
    ensures Bit(q * 16 + d, k) == Bit(d, k)
  {
    assert Pow2(0) == 1 && Pow2(1) == 2 && Pow2(2) == 4 && Pow2(3) == 8;
    BitUnder(q, d, Pow2(k), if k == 0 then 8 else if k == 1 then 4 else if k == 2 then 2 else 1);
  }

  /** Bits of the number are bits of its digits. */
  lemma HighBit(q: nat, d: nat, k: nat)
    requires d < 16
    ensures Bit(q * 16 + d, k + 4) == Bit(q, k)
  {
    Pow2Plus4(k);
    DivShift(q, d, Pow2(k));
  }

  lemma DigitBitShift(s: string, k: nat)
    requires AllHex(s) && s != ""
    ensures DigitBit(s, k + 4) == DigitBit(s[..|s| - 1], k)
  {
    assert (k + 4) / 4 == k / 4 + 1 && (k + 4) % 4 == k % 4;
  }

  lemma {:induction false} BitsOfDigits(s: string, k: nat)
    requires AllHex(s)
    ensures Bit(Number(s), k) == DigitBit(s, k)
    decreases |s|
  {
    if s == "" {
      assert 0 / Pow2(k) == 0;
    } else {
      var init, d := s[..|s| - 1], HexValue(s[|s| - 1]);
      if k < 4 {
        LowBit(Number(init), d, k);
        assert k / 4 == 0 && k % 4 == k;
      } else {
        HighBit(Number(init), d, k - 4);
        BitsOfDigits(init, k - 4);
        DigitBitShift(s, k - 4);
      }
    }
  }

  // ----- the code as written

  predicate HexUpTo(s: string, j: nat) {
    j <= |s| && forall i :: 0 <= i < j ==> IsHex(s[i])
  }

  /** Bit `k` as far as the first `j` digits, the most significant ones, tell. */
  predicate Entry(s: string, j: nat, k: nat)
    requires HexUpTo(s, j)
  {
    k / 4 < |s| && |s| - 1 - k / 4 < j && Bit(HexValue(s[|s| - 1 - k / 4]), k % 4)
  }

  /** Entry `k` is one of the four that end at `n`, and its bit of the digit is set. */
  predicate Added(d: nat, n: nat, k: nat) {
    n - 3 <= k <= n && Bit(d, k - (n - 3))
  }

  lemma EntryStep(s: string, j: nat, n: nat, k: nat)
    requires j < |s| && HexUpTo(s, j + 1) && n == 4 * (|s| - j) - 1
    ensures Entry(s, j + 1, k) == (Entry(s, j, k) || Added(HexValue(s[j]), n, k))
  {
    var base := n - 3;
    if base <= k < base + 4 {
      assert k / 4 == |s| - 1 - j && k % 4 == k - base;
    } else {
      assert k / 4 != |s| - 1 - j;
    }
  }

  lemma EntriesStep(s: string, j: nat, n: nat)
    requires j < |s| && HexUpTo(s, j + 1) && n == 4 * (|s| - j) - 1
    ensures forall k: nat :: Entry(s, j + 1, k) == (Entry(s, j, k) || Added(HexValue(s[j]), n, k))
  {
    forall k: nat
      ensures Entry(s, j + 1, k) == (Entry(s, j, k) || Added(HexValue(s[j]), n, k))
    {
      EntryStep(s, j, n, k);
    }
  }

  lemma EntriesComplete(s: string)
    requires AllHex(s)
    ensures forall k: nat :: Entry(s, |s|, k) == Bit(Number(s), k)
  {
    forall k: nat
      ensures Entry(s, |s|, k) == Bit(Number(s), k)
    {
      BitsOfDigits(s, k);
    }
  }

  /** The four assignments for one digit. */
  method OrDigit(boolmask: array<bool>, n: nat, d: nat)
    requires 3 <= n < boolmask.Length && d < 16
    modifies boolmask
    ensures forall k :: 0 <= k < boolmask.Length ==> boolmask[k] == (old(boolmask[k]) || Added(d, n, k))
  {
    assert Pow2(0) == 1 && Pow2(1) == 2 && Pow2(2) == 4 && Pow2(3) == 8;
    boolmask[n] := boolmask[n] || d / 8 % 2 == 1;
    boolmask[n - 1] := boolmask[n - 1] || d / 4 % 2 == 1;
    boolmask[n - 2] := boolmask[n - 2] || d / 2 % 2 == 1;
    boolmask[n - 3] := boolmask[n - 3] || d % 2 == 1;
  }

  const WORD := 0x1_0000_0000_0000_0000

  /** The entries after the first `j` digits. */
  ghost predicate MaskAt(now: seq<bool>, before: seq<bool>, s: string, j: nat)
    requires HexUpTo(s, j)
  {
    |now| == |before| && forall k :: 0 <= k < |now| ==> now[k] == (before[k] || Entry(s, j, k))
  }

  /** One digit, at the place that `n` says. */
  method TakeDigit(boolmask: array<bool>, n: nat, c: char, ghost s: string, ghost j: nat, ghost before: seq<bool>)
    requires j < |s| && c == s[j] && IsHex(c) && HexUpTo(s, j) && n == 4 * (|s| - j) - 1 < boolmask.Length
    requires MaskAt(boolmask[..], before, s, j)
    modifies boolmask
    ensures HexUpTo(s, j + 1) && MaskAt(boolmask[..], before, s, j + 1)
  {
    EntriesStep(s, j, n);
    OrDigit(boolmask, n, HexValue(c));
  }

  lemma MaskComplete(now: seq<bool>, before: seq<bool>, s: string)
    requires AllHex(s) && MaskAt(now, before, s, |s|)
    ensures |now| == |before| && forall k :: 0 <= k < |now| ==> now[k] == (before[k] || Bit(Number(s), k))
  {
    EntriesComplete(s);
  }

  lemma MaskKeeps(now: seq<bool>, before: seq<bool>, s: string, j: nat)
    requires HexUpTo(s, j) && MaskAt(now, before, s, j)
    ensures |now| == |before| && forall k :: 0 <= k < |now| ==> before[k] ==> now[k]
  {
  }

  /** The loop over the digits, with its unsigned counter. */
  method TakeDigits(boolmask: array<bool>, s: string) returns (ok: bool)
    requires boolmask.Length >= MAX_THREADS && |s| <= 128
    modifies boolmask
    ensures ok <==> AllHex(s)
    ensures ok ==> MaskAt(boolmask[..], old(boolmask[..]), s, |s|)
    ensures forall k :: 0 <= k < boolmask.Length ==> old(boolmask[k]) ==> boolmask[k]
  {
    ghost var before := boolmask[..];
    var n := (|s| * 4 + WORD - 1) % WORD;
    for i := 0 to |s|
      invariant HexUpTo(s, i) && MaskAt(boolmask[..], before, s, i)
      invariant i < |s| ==> n == (|s| - i) * 4 - 1
    {
      var c := s[i];
      if !IsHex(c) {
        MaskKeeps(boolmask[..], before, s, i);
        return false;
      }
      TakeDigit(boolmask, n, c, s, i, before);
      n := (n + WORD - 4) % WORD;
    }
    MaskKeeps(boolmask[..], before, s, |s|);
    ok := true;
  }

  /** On success each entry is its old value or-ed with its bit of the number; every index is in bounds, and
      the unsigned counter that wraps after the last digit is not used again. */
  method ParseCpuMask(mask: string, boolmask: array<bool>) returns (ok: bool)
    requires boolmask.Length >= MAX_THREADS
    modifies boolmask
    ensures ok <==> AllHex(Digits(mask))
    ensures ok ==> forall k :: 0 <= k < boolmask.Length ==>
                     boolmask[k] == (old(boolmask[k]) || Bit(Number(Digits(mask)), k))
    ensures forall k :: 0 <= k < boolmask.Length ==> old(boolmask[k]) ==> boolmask[k]
  {
    var start := 0;
    if |mask| >= 2 && mask[..2] == "0x" {
      start := 2;
    }
    var numDigits := |mask| - start;
    if numDigits > 128 {
      numDigits := 128;
    }
    assert Digits(mask) == mask[start..start + numDigits];
    ok := TakeDigits(boolmask, mask[start..start + numDigits]);
    if ok {
      MaskComplete(boolmask[..], old(boolmask[..]), Digits(mask));
    }
  }

  /** The prefix is optional, and digits after the 128th are ignored. */
  lemma DigitsCount(digits: string)
    ensures Digits("0x" + digits) == if |digits| <= 128 then digits else digits[..128]
    ensures !("0x" <= digits) ==> Digits(digits) == if |digits| <= 128 then digits else digits[..128]
  {
    assert ("0x" + digits)[..2] == "0x" && ("0x" + digits)[2..] == digits;
    if |digits| >= 2 && digits[..2] == "0x" {
      assert "0x" <= digits;
    }
  }
}
