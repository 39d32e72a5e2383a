/** Which permutations, reshapes and concatenations a low-rank tensor accepts (convert_lora_to_gguf.py), as
    conditions on shapes and axes. */
module LoraAccepts {
  import opened Wrappers
  import opened Arithmetic
  import opened Tensors
  import opened LoraTensor

  /** A permutation is accepted exactly when it keeps the last axis and A has no batch, or when it exchanges the
      two axes there are. */
  lemma PermuteAcceptsIff(l: Lora, p: seq<nat>)
    requires WellShaped(l) && |p| == Dims(l) && IsPermutation(p)
    ensures PermuteLora(l, p).Some? <==>
              || (p[|p| - 1] == |p| - 1 && forall i :: 0 <= i < |p| - 2 ==> l.A.shape[i] == 1)
              || p == [1, 0]
  {
    var n := Dims(l);
    assert forall i :: 0 <= i < n - 2 ==> l.A.shape[..n - 2][i] == l.A.shape[i];
    if n == 2 {
      assert p == [p[0], p[1]];
    }
  }

  // ----- filling in -1

  /** `full` is `shape` with its -1 replaced by the quotient of the sizes. */
  predicate FillsIn(shape: seq<int>, total: nat, full: seq<nat>) {
    && |full| == |shape|
    && forall i :: 0 <= i < |shape| ==>
         if shape[i] == -1 then Known(shape) != 0 && full[i] * Known(shape) == total else full[i] == shape[i]
  }

  lemma {:induction false} KnownIsNatural(shape: seq<int>)
    requires forall i :: 0 <= i < |shape| ==> shape[i] >= -1
    ensures Known(shape) >= 0
    decreases |shape|
  {
    if shape != [] {
      KnownIsNatural(shape[..|shape| - 1]);
    }
  }

  lemma QuotientIs(total: nat, known: int, q: nat)
    requires known > 0 && q * known == total
    ensures total % known == 0 && total / known == q
  {
    var k: nat := known;
    DivUnique(total, k, q, 0);
    SameQuotient(k, q, 0, total / k, total % k);
  }

  lemma WholeQuotient(total: nat, known: int)
    requires known != 0 && total % known == 0
    ensures total / known * known == total
  {
  }

  lemma FilledExpands(shape: seq<int>, total: nat, full: seq<nat>)
    requires FillsIn(shape, total, full)
    ensures Expand(shape, total) == Some(full)
  {
    KnownIsNatural(shape);
    if -1 in shape {
      var i :| 0 <= i < |shape| && shape[i] == -1;
      QuotientIs(total, Known(shape), full[i]);
      forall j | 0 <= j < |shape| && shape[j] == -1
        ensures full[j] == full[i]
      {
        QuotientIs(total, Known(shape), full[j]);
      }
      var e := Expand(shape, total).value;
      assert |e| == |full| && forall j :: 0 <= j < |e| ==> e[j] == full[j];
      assert e == full;
    } else {
      assert shape == full;
    }
  }

  lemma ExpandedFills(shape: seq<int>, total: nat, full: seq<nat>)
    requires Expand(shape, total) == Some(full)
    ensures FillsIn(shape, total, full)
  {
    if -1 in shape {
      WholeQuotient(total, Known(shape));
    }
  }

  /** The full shape is the requested one with -1 filled in; there is none if a size does not divide the other
      or an extent is negative. */
  lemma FullShapeIff(l: Lora, shape: seq<int>, full: seq<nat>)
    requires WellShaped(l)
    ensures FullShape(l, shape) == Some(full) <==> FillsIn(shape, Product(Shape(l)), full)
  {
    var total := Product(Shape(l));
    if FillsIn(shape, total, full) {
      FilledExpands(shape, total, full);
      assert full == seq(|full|, i requires 0 <= i < |full| => if full[i] < 0 then 0 else full[i]);
    }
    if FullShape(l, shape) == Some(full) {
      var e := Expand(shape, total).value;
      assert e == full;
      ExpandedFills(shape, total, full);
    }
  }

  lemma {:induction false} AllGiven(shape: seq<int>, full: seq<nat>)
    requires shape == full
    ensures Known(shape) == Product(full)
    decreases |shape|
  {
    if shape != [] {
      AllGiven(shape[..|shape| - 1], full[..|full| - 1]);
    }
  }

  lemma {:induction false} OneFilled(shape: seq<int>, full: seq<nat>, i: nat)
    requires i < |shape| == |full| && shape[i] == -1
    requires forall j :: 0 <= j < |shape| && j != i ==> shape[j] == full[j]
    ensures Product(full) == Known(shape) * full[i]
    decreases |shape|
  {
    var n := |shape| - 1;
    if i == n {
      AllGiven(shape[..n], full[..n]);
    } else {
      OneFilled(shape[..n], full[..n], i);
      Exchange(Known(shape[..n]), full[i], shape[n]);
    }
  }

  lemma Exchange(a: int, b: int, c: int)
    ensures a * b * c == a * c * b
  {
  }

  /** With one -1 the full shape has as many entries as there are. */
  lemma FilledSize(shape: seq<int>, total: nat, full: seq<nat>, i: nat)
    requires FillsIn(shape, total, full) && i < |shape| && shape[i] == -1
    requires forall j :: 0 <= j < |shape| && j != i ==> shape[j] != -1
    ensures Product(full) == total
  {
    OneFilled(shape, full, i);
  }

  // ----- reshape

  /** The factors can be brought into the form of a full shape: A is one matrix, the rows of B are as many as those
      of the shape, and the last axis is the same. */
  predicate Fits(l: Lora, full: seq<nat>)
    requires WellShaped(l)
  {
    var cols := l.A.shape[Dims(l) - 1];
    && |full| >= 2 && full[|full| - 1] == cols
    && Product(l.A.shape) == Rank(l) * cols
    && Product(full[..|full| - 1]) * Rank(l) == Product(l.B.shape)
  }

  lemma ProductLastTwo(m: nat, r: nat, cols: nat)
    ensures Product(Ones(m) + [r, cols]) == r * cols
  {
    OneByOne(Ones(m), r, cols);
    ProductSnoc(Ones(m) + [r], cols);
    ProductSnoc(Ones(m), r);
    ProductOnes(m);
  }

  lemma ReshapeToIff(l: Lora, full: seq<nat>)
    requires WellShaped(l)
    ensures ReshapeTo(l, full).Some? <==> Fits(l, full)
  {
    if |full| >= 2 {
      ProductLastTwo(|full| - 2, Rank(l), l.A.shape[Dims(l) - 1]);
      ProductSnoc(full[..|full| - 1], Rank(l));
    }
  }

  /** A reshape is accepted exactly when the requested shape, with its -1 filled in, fits. */
  lemma ReshapeAcceptsIff(l: Lora, shape: seq<int>)
    requires WellShaped(l)
    ensures ReshapeLora(l, shape).Some? <==>
              exists full: seq<nat> :: FillsIn(shape, Product(Shape(l)), full) && Fits(l, full)
  {
    if ReshapeLora(l, shape).Some? {
      var full := FullShape(l, shape).value;
      FullShapeIff(l, shape, full);
      ReshapeToIff(l, full);
    }
    if full: seq<nat> :| FillsIn(shape, Product(Shape(l)), full) && Fits(l, full) {
      FullShapeIff(l, shape, full);
      ReshapeToIff(l, full);
    }
  }

  lemma Cancel(a: nat, b: nat, x: nat)
    requires x > 0
    ensures a * x == b * x <==> a == b
  {
    if a * x == b * x {
      assert (a - b) * x == 0;
    }
  }

  lemma {:induction false} OnesProduct(shape: seq<nat>)
    requires AllOnes(shape)
    ensures Product(shape) == 1
    decreases |shape|
  {
    if shape != [] {
      OnesProduct(shape[..|shape| - 1]);
    }
  }

  /** One matrix: the batch extents of A are all 1. */
  lemma MatrixIff(shapeA: seq<nat>, r: nat, cols: nat)
    requires |shapeA| >= 2 && shapeA[|shapeA| - 2] == r > 0 && shapeA[|shapeA| - 1] == cols > 0
    ensures Product(shapeA) == r * cols <==> AllOnes(shapeA[..|shapeA| - 2])
  {
    var batch := shapeA[..|shapeA| - 2];
    LastTwo(shapeA);
    ProductSnoc(batch + [r], cols);
    ProductSnoc(batch, r);
    Cancel(Product(batch) * r, 1 * r, cols);
    Cancel(Product(batch), 1, r);
    if Product(batch) == 1 {
      ProductOneIsOnes(batch);
    }
    if AllOnes(batch) {
      OnesProduct(batch);
    }
  }

  /** For factors that are not empty, that is exactly when the last axis stays, no entry is gained or lost, and
      A has no batch. */
  lemma FitsIff(l: Lora, full: seq<nat>)
    requires WellShaped(l) && Rank(l) > 0 && l.A.shape[Dims(l) - 1] > 0
    ensures Fits(l, full) <==>
              && |full| >= 2 && full[|full| - 1] == l.A.shape[Dims(l) - 1]
              && Product(full) == Product(Shape(l))
              && forall i :: 0 <= i < Dims(l) - 2 ==> l.A.shape[i] == 1
  {
    var n, r, cols := Dims(l), Rank(l), l.A.shape[Dims(l) - 1];
    MatrixIff(l.A.shape, r, cols);
    assert AllOnes(l.A.shape[..n - 2]) <==> forall i :: 0 <= i < n - 2 ==> l.A.shape[i] == 1 by {
      assert forall i :: 0 <= i < n - 2 ==> l.A.shape[..n - 2][i] == l.A.shape[i];
    }
    if |full| >= 2 && full[|full| - 1] == cols {
      SizesIff(l, full);
    }
  }

  lemma SizesIff(l: Lora, full: seq<nat>)
    requires WellShaped(l) && Rank(l) > 0 && l.A.shape[Dims(l) - 1] > 0
    requires |full| >= 2 && full[|full| - 1] == l.A.shape[Dims(l) - 1]
    ensures Product(full[..|full| - 1]) * Rank(l) == Product(l.B.shape) <==> Product(full) == Product(Shape(l))
  {
    var n, r, cols := Dims(l), Rank(l), l.A.shape[Dims(l) - 1];
    var rows, rows' := Product(full[..|full| - 1]), Product(l.B.shape[..n - 1]);
    ProductSnoc(l.B.shape[..n - 1], cols);
    Cancel(rows, rows', r);
    Cancel(rows, rows', cols);
  }

  // ----- concatenation

  ghost predicate SameMatrix(a: Tensor, b: Tensor)
    requires |a.shape| == 2
  {
    && a.shape == b.shape
    && forall x: nat, y: nat :: x < a.shape[0] && y < a.shape[1] ==> a.at([x, y]) == b.at([x, y])
  }

  lemma SameMatrixIff(a: Tensor, b: Tensor)
    requires |a.shape| == 2
    ensures Same(a, b) <==> SameMatrix(a, b)
  {
    if Same(a, b) {
      forall x: nat, y: nat | x < a.shape[0] && y < a.shape[1]
        ensures a.at([x, y]) == b.at([x, y])
      {
        assert InShape([x, y], a.shape);
      }
    }
    if SameMatrix(a, b) {
      forall idx | InShape(idx, a.shape)
        ensures a.at(idx) == b.at(idx)
      {
        assert idx == [idx[0], idx[1]];
      }
    }
  }

  /** Two-dimensional tensors are concatenated exactly when their factors A have the same shape and entries. */
  lemma ConcatAcceptsIff(ls: seq<Lora>)
    requires Alike2D(ls)
    ensures ConcatLora(ls).Some? <==> forall i :: 0 <= i < |ls| ==> SameMatrix(ls[i].A, ls[0].A)
  {
    forall i | 0 <= i < |ls|
      ensures Same(ls[i].A, ls[0].A) <==> SameMatrix(ls[i].A, ls[0].A)
    {
      SameMatrixIff(ls[i].A, ls[0].A);
    }
  }
}
