/** What the reference operations on dense tensors compute, entry by entry. */
module TensorLaws {
  import opened Wrappers
  import opened Arithmetic
  import opened Tensors
  import opened LoraTensor

  // ----- slices

  /** A slice takes every `step`th position from its first to before its limit. */
  lemma SliceTakes(s: Slice, extent: nat, x: nat)
    requires s.Range?
    ensures x < Extent(s, extent) <==> First(s, extent) + x * s.step < Limit(s, extent)
    ensures Place(s, extent, x) == First(s, extent) + x * s.step
  {
    if First(s, extent) < Limit(s, extent) {
      CountIff(Limit(s, extent) - First(s, extent), s.step, x);
    } else {
      assert x * s.step >= 0;
    }
  }

  lemma {:induction false} CountIff(n: nat, d: Stride, x: nat)
    ensures x < Count(n, d) <==> x * d < n
    decreases x
  {
    if x > 0 {
      Distribute(x, d);
      if n > 0 {
        CountIff(if n > d then n - d else 0, d, x - 1);
      } else {
        assert (x - 1) * d >= 0;
      }
    }
  }

  /** A missing bound is an end of the axis, a bound below zero counts from the end, and bounds outside the axis
      are moved to its ends. */
  lemma BoundsAre(lo: Option<int>, hi: Option<int>, step: Stride, extent: nat)
    ensures var s := Range(lo, hi, step);
            && (lo.None? ==> First(s, extent) == 0)
            && (hi.None? ==> Limit(s, extent) == extent)
            && (lo.Some? && 0 <= lo.value <= extent ==> First(s, extent) == lo.value)
            && (hi.Some? && 0 <= hi.value <= extent ==> Limit(s, extent) == hi.value)
            && (lo.Some? && lo.value > extent ==> First(s, extent) == extent)
            && (hi.Some? && hi.value > extent ==> Limit(s, extent) == extent)
            && (lo.Some? && -(extent as int) <= lo.value < 0 ==> First(s, extent) == extent + lo.value)
            && (hi.Some? && -(extent as int) <= hi.value < 0 ==> Limit(s, extent) == extent + hi.value)
            && (lo.Some? && lo.value < -(extent as int) ==> First(s, extent) == 0)
            && (hi.Some? && hi.value < -(extent as int) ==> Limit(s, extent) == 0)
  {
  }

  // ----- permutation

  /** The entry at an index is found at the permuted index. */
  lemma PermuteMoves(t: Tensor, p: seq<nat>, idx: Index)
    requires |p| == |t.shape| == |idx| && IsPermutation(p)
    ensures var moved := seq(|p|, i requires 0 <= i < |p| => idx[p[i]]);
            Permute(t, p).at(moved) == t.at(idx)
    ensures forall i :: 0 <= i < |p| ==> Permute(t, p).shape[i] == t.shape[p[i]]
  {
    var moved := seq(|p|, i requires 0 <= i < |p| => idx[p[i]]);
    forall j | 0 <= j < |p|
      ensures Unpermuted(p, moved)[j] == idx[j]
    {
      PositionExists(p, j);
    }
    assert Unpermuted(p, moved) == idx;
  }

  // ----- reshape

  /** The position of an index in a matrix is its row times the row length plus its column. */
  lemma FlatMatrix(rows: nat, cols: nat, i: nat, j: nat)
    ensures Flat([i, j], [rows, cols]) == i * cols + j && Product([rows, cols]) == rows * cols
  {
    assert [i, j][..1] == [i] && [rows, cols][..1] == [rows] && [i][..0] == [] && [rows][..0] == [];
    assert Flat([i], [rows]) == Flat([], []) * rows + i == i;
    assert Product([rows]) == Product([]) * rows == rows;
  }

  lemma Monotone(a: nat, b: nat, s: nat)
    ensures a <= b ==> a * s <= b * s
  {
    if a < b {
      MulAtLeast(b - a, s);
      Split(b, a, s);
    }
  }

  lemma Split(b: nat, a: nat, s: nat)
    ensures b * s == a * s + (b - a) * s
  {
  }

  lemma DivSmaller(n: nat, a: nat, s: nat)
    requires n < a * s
    ensures s > 0 && Quotient(n, s) < a && Remainder(n, s) < s && Quotient(n, s) * s + Remainder(n, s) == n
  {
    Monotone(a, Quotient(n, s), s);
  }

  /** Every position below the size has one index. */
  lemma {:induction false} UnflatInverts(n: nat, shape: seq<nat>)
    requires n < Product(shape)
    ensures InShape(Unflat(n, shape), shape) && Flat(Unflat(n, shape), shape) == n
    decreases |shape|
  {
    if shape != [] {
      var k := |shape| - 1;
      DivSmaller(n, Product(shape[..k]), shape[k]);
      UnflatInverts(Quotient(n, shape[k]), shape[..k]);
      var i, r := Unflat(Quotient(n, shape[k]), shape[..k]), Remainder(n, shape[k]);
      assert Unflat(n, shape) == i + [r] && (i + [r])[..k] == i;
    }
  }

  lemma FlatStep(f: nat, rows: nat, k: nat, s: nat)
    requires f < rows && k < s
    ensures f * s + k < rows * s
  {
    MulAtLeast(rows - f, s);
    Split(rows, f, s);
  }

  lemma {:induction false} FlatInside(idx: Index, shape: seq<nat>)
    requires InShape(idx, shape)
    ensures Flat(idx, shape) < Product(shape)
    decreases |shape|
  {
    if shape != [] {
      var k := |shape| - 1;
      FlatInside(idx[..k], shape[..k]);
      FlatStep(Flat(idx[..k], shape[..k]), Product(shape[..k]), idx[k], shape[k]);
    }
  }

  /** A reshape keeps the order of the entries: the entry is the one at the same position. */
  lemma ReshapeKeepsOrder(t: Tensor, shape: seq<nat>, idx: Index)
    requires Product(shape) == Product(t.shape) && InShape(idx, shape)
    ensures exists from: Index :: InShape(from, t.shape) && Flat(from, t.shape) == Flat(idx, shape)
                                  && Reshape(t, shape).at(idx) == t.at(from)
  {
    FlatInside(idx, shape);
    UnflatInverts(Flat(idx, shape), t.shape);
    var from := Unflat(Flat(idx, shape), t.shape);
    assert Reshape(t, shape).at(idx) == t.at(from);
  }

  // ----- stack and concatenation

  /** Tensor `n` of a stack is tensor `n`. */
  lemma StackHolds(ts: seq<Tensor>, n: nat, idx: Index)
    requires n < |ts|
    ensures Stack(ts).at([n] + idx) == ts[n].at(idx) && Stack(ts).shape == [|ts|] + ts[0].shape
  {
    assert ([n] + idx)[1..] == idx;
  }

  lemma {:induction false} LocateAt(ts: seq<Tensor>, n: nat, i: nat)
    requires (forall t :: t in ts ==> t.shape != []) && n < |ts| && i < ts[n].shape[0]
    ensures Rows(ts[..n]) + i < Rows(ts) && Locate(ts, Rows(ts[..n]) + i) == (n, i)
    decreases n
  {
    if n > 0 {
      LocateAt(ts[1..], n - 1, i);
      assert ts[..n][1..] == ts[1..][..n - 1];
    }
  }

  /** Row `i` of tensor `n` stands in the concatenation behind the rows of the tensors before it. */
  lemma ConcatHolds(ts: seq<Tensor>, n: nat, i: nat, idx: Index)
    requires (forall t :: t in ts ==> t.shape != []) && n < |ts| && i < ts[n].shape[0]
    ensures Concat(ts).at([Rows(ts[..n]) + i] + idx) == ts[n].at([i] + idx)
  {
    LocateAt(ts, n, i);
    var whole := [Rows(ts[..n]) + i] + idx;
    assert whole[1..] == idx;
  }

  // ----- product

  /** In two dimensions an entry of the product is the sum of row times column. */
  lemma MatrixProduct(l: Lora, i: nat, j: nat)
    requires WellShaped(l) && Dims(l) == 2
    ensures MultiplyOut(l).at([i, j]) == Sum((k: nat) => l.B.at([i, k]) * l.A.at([k, j]), l.B.shape[1])
    ensures MultiplyOut(l).shape == [l.B.shape[0], l.A.shape[1]]
  {
    forall k: nat | k < Rank(l)
      ensures Term(l, [i, j])(k) == l.B.at([i, k]) * l.A.at([k, j])
    {
      Factors2D(l, i, j, k);
    }
    SumEqual(Term(l, [i, j]), (k: nat) => l.B.at([i, k]) * l.A.at([k, j]), Rank(l));
  }

  /** With one batch axis the matrices are multiplied one by one; a single A is used for all of them. */
  lemma BatchProduct(l: Lora, b: nat, i: nat, j: nat)
    requires WellShaped(l) && Dims(l) == 3
    ensures MultiplyOut(l).at([b, i, j])
         == Sum((k: nat) => l.B.at([b, i, k]) * l.A.at([if l.A.shape[0] == 1 then 0 else b, k, j]), l.B.shape[2])
  {
    var a := if l.A.shape[0] == 1 then 0 else b;
    forall k: nat | k < Rank(l)
      ensures Term(l, [b, i, j])(k) == l.B.at([b, i, k]) * l.A.at([a, k, j])
    {
      assert [b, i, j][..2] + [k] == [b, i, k];
      assert BatchOf([b, i, j], l.A.shape, 1) + [k, j] == [a, k, j];
    }
    SumEqual(Term(l, [b, i, j]), (k: nat) => l.B.at([b, i, k]) * l.A.at([a, k, j]), Rank(l));
  }
}
