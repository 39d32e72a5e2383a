/** A low-rank adapter tensor kept as two factors (convert_lora_to_gguf.py). Each operation works on the
    factors; what must come out is the operation on their product. */
module LoraTensor {
  import opened Wrappers
  import opened Tensors

  datatype Lora = Lora(A: Tensor, B: Tensor)

  // ----- the product

  predicate WellShaped(l: Lora) {
    && |l.A.shape| == |l.B.shape| >= 2
    && l.A.shape[|l.A.shape| - 2] == l.B.shape[|l.B.shape| - 1]
  }

  function Dims(l: Lora): nat {
    |l.B.shape|
  }

  function Rank(l: Lora): nat
    requires WellShaped(l)
  {
    l.B.shape[Dims(l) - 1]
  }

  function Shape(l: Lora): seq<nat>
    requires WellShaped(l)
  {
    l.B.shape[..Dims(l) - 1] + [l.A.shape[Dims(l) - 1]]
  }

  /** The batch axes can be multiplied: those of A are 1 or the same as those of B. */
  predicate Broadcasts(l: Lora) {
    WellShaped(l) && forall i :: 0 <= i < Dims(l) - 2 ==> l.A.shape[i] == 1 || l.A.shape[i] == l.B.shape[i]
  }

  /** The batch index into A: an axis of extent 1 is repeated. */
  function BatchOf(idx: Index, shapeA: seq<nat>, n: nat): Index
    requires n <= |idx| && n <= |shapeA|
  {
    seq(n, i requires 0 <= i < n => if shapeA[i] == 1 then 0 else idx[i])
  }

  function Left(l: Lora, idx: Index, k: nat): real
    requires WellShaped(l) && |idx| == Dims(l)
  {
    l.B.at(idx[..Dims(l) - 1] + [k])
  }

  function Right(l: Lora, idx: Index, k: nat): real
    requires WellShaped(l) && |idx| == Dims(l)
  {
    l.A.at(BatchOf(idx, l.A.shape, Dims(l) - 2) + [k, idx[Dims(l) - 1]])
  }

  function Term(l: Lora, idx: Index): nat -> real
    requires WellShaped(l) && |idx| == Dims(l)
  {
    (k: nat) => Left(l, idx, k) * Right(l, idx, k)
  }

  /** B times A, batch by batch. */
  function MultiplyOut(l: Lora): Tensor
    requires WellShaped(l)
  {
    Tensor(Shape(l), idx => if |idx| == Dims(l) then Sum(Term(l, idx), Rank(l)) else 0.0)
  }

  /** Two entries are equal when their factors are, term by term. */
  lemma EntriesEqual(l: Lora, idx: Index, l': Lora, idx': Index)
    requires WellShaped(l) && WellShaped(l') && |idx| == Dims(l) && |idx'| == Dims(l') && Rank(l) == Rank(l')
    requires forall k: nat :: k < Rank(l) ==> Left(l, idx, k) == Left(l', idx', k) && Right(l, idx, k) == Right(l', idx', k)
    ensures MultiplyOut(l).at(idx) == MultiplyOut(l').at(idx')
  {
    forall k: nat | k < Rank(l) ensures Term(l, idx)(k) == Term(l', idx')(k) {
      assert Left(l, idx, k) == Left(l', idx', k);
    }
    SumEqual(Term(l, idx), Term(l', idx'), Rank(l));
  }

  // ----- permute

  /** Keeping the last axis permutes B alone; in two dimensions exchanging the axes exchanges and transposes
      the factors; anything else is refused. */
  function PermuteLora(l: Lora, p: seq<nat>): Option<Lora>
    requires WellShaped(l) && |p| == Dims(l) && IsPermutation(p)
  {
    var n := Dims(l);
    if p[n - 1] == n - 1 then
      if AllOnes(l.A.shape[..n - 2]) then Some(Lora(l.A, Permute(l.B, p))) else None
    else if n == 2 && p[1] == 0 && p[0] == 1 then Some(Lora(Permute(l.B, p), Permute(l.A, p)))
    else None
  }

  lemma PositionIs(p: seq<nat>, i: nat)
    requires IsPermutation(p) && i < |p|
    ensures Position(p, p[i]) == i
  {
    var j := Position(p, p[i]);
    assert p[i] in p;
    assert j < |p| && p[j] == p[i];
  }

  lemma PositionExists(p: seq<nat>, x: nat)
    requires IsPermutation(p) && x < |p|
    ensures Position(p, x) < |p|
  {
    assert x in p;
  }

  lemma UnpermutedKeepsLast(p: seq<nat>, idx: Index, k: nat)
    requires IsPermutation(p) && |p| == |idx| >= 1 && p[|p| - 1] == |p| - 1
    ensures Unpermuted(p, idx[..|idx| - 1] + [k]) == Unpermuted(p, idx)[..|p| - 1] + [k]
    ensures Unpermuted(p, idx)[|p| - 1] == idx[|p| - 1]
  {
    var n := |p|;
    PositionIs(p, n - 1);
    var a, b := Unpermuted(p, idx[..n - 1] + [k]), Unpermuted(p, idx)[..n - 1] + [k];
    forall j | 0 <= j < n ensures a[j] == b[j] {
      PositionExists(p, j);
      if j < n - 1 {
        assert Position(p, j) != n - 1;
      }
    }
    assert a == b;
  }

  lemma PermuteKeepingLast(l: Lora, p: seq<nat>)
    requires WellShaped(l) && |p| == Dims(l) && IsPermutation(p) && p[Dims(l) - 1] == Dims(l) - 1
    requires AllOnes(l.A.shape[..Dims(l) - 2])
    ensures var g := Lora(l.A, Permute(l.B, p));
            Broadcasts(g) && Same(MultiplyOut(g), Permute(MultiplyOut(l), p))
  {
    var n, g, whole := Dims(l), Lora(l.A, Permute(l.B, p)), MultiplyOut(l);
    forall i | 0 <= i < n - 2 ensures l.A.shape[i] == 1 { assert l.A.shape[..n - 2][i] == 1; }
    forall i | 0 <= i < n ensures Shape(g)[i] == Permute(whole, p).shape[i] {
      if i < n - 1 { assert p[i] != p[n - 1]; }
    }
    assert Shape(g) == Permute(whole, p).shape;
    forall idx | InShape(idx, Shape(g))
      ensures MultiplyOut(g).at(idx) == Permute(whole, p).at(idx)
    {
      var idx' := Unpermuted(p, idx);
      forall k: nat | k < Rank(g)
        ensures Left(g, idx, k) == Left(l, idx', k) && Right(g, idx, k) == Right(l, idx', k)
      {
        UnpermutedKeepsLast(p, idx, k);
        assert BatchOf(idx, l.A.shape, n - 2) == BatchOf(idx', l.A.shape, n - 2);
      }
      EntriesEqual(g, idx, l, idx');
    }
  }

  lemma Swapped(p: seq<nat>, i: nat, j: nat)
    requires p == [1, 0]
    ensures Unpermuted(p, [i, j]) == [j, i]
  {
    assert p[0] == 1 && p[1] == 0;
    assert Position(p, 1) == 0;
    assert Position(p[1..], 0) == 0 && Position(p, 0) == 1;
  }

  lemma TransposedEntry(l: Lora, p: seq<nat>, i: nat, j: nat)
    requires WellShaped(l) && Dims(l) == 2 && p == [1, 0] && IsPermutation(p)
    requires WellShaped(Lora(Permute(l.B, p), Permute(l.A, p)))
    ensures MultiplyOut(Lora(Permute(l.B, p), Permute(l.A, p))).at([i, j]) == MultiplyOut(l).at([j, i])
  {
    var g := Lora(Permute(l.B, p), Permute(l.A, p));
    forall k: nat | k < Rank(g) ensures Term(g, [i, j])(k) == Term(l, [j, i])(k) {
      Swapped(p, i, k);
      Swapped(p, k, j);
      assert [i, j][..1] + [k] == [i, k] && [j, i][..1] + [k] == [j, k];
      assert BatchOf([i, j], g.A.shape, 0) + [k, j] == [k, j];
      assert BatchOf([j, i], l.A.shape, 0) + [k, i] == [k, i];
    }
    SumEqual(Term(g, [i, j]), Term(l, [j, i]), Rank(g));
  }

  lemma TransposeCommutes(l: Lora, p: seq<nat>)
    requires WellShaped(l) && Dims(l) == 2 && p == [1, 0]
    ensures IsPermutation(p)
    ensures var g := Lora(Permute(l.B, p), Permute(l.A, p));
            Broadcasts(g) && Same(MultiplyOut(g), Permute(MultiplyOut(l), p))
  {
    assert p[0] == 1 && p[1] == 0;
    var g, whole := Lora(Permute(l.B, p), Permute(l.A, p)), MultiplyOut(l);
    assert Shape(g) == Permute(whole, p).shape;
    forall idx | InShape(idx, Shape(g))
      ensures MultiplyOut(g).at(idx) == Permute(whole, p).at(idx)
    {
      assert idx == [idx[0], idx[1]];
      Swapped(p, idx[0], idx[1]);
      TransposedEntry(l, p, idx[0], idx[1]);
    }
  }

  /** Whenever a permutation is not refused, it is the permutation of the product. */
  lemma PermuteCommutes(l: Lora, p: seq<nat>)
    requires WellShaped(l) && |p| == Dims(l) && IsPermutation(p) && PermuteLora(l, p).Some?
    ensures Broadcasts(PermuteLora(l, p).value)
    ensures Same(MultiplyOut(PermuteLora(l, p).value), Permute(MultiplyOut(l), p))
  {
    if p[Dims(l) - 1] == Dims(l) - 1 {
      PermuteKeepingLast(l, p);
    } else {
      assert p == [1, 0];
      TransposeCommutes(l, p);
    }
  }

  // ----- reshape

  function Ones(n: nat): seq<nat> {
    seq(n, _ => 1)
  }

  /** The product of the extents that are given. */
  function Known(shape: seq<int>): int {
    if shape == [] then 1
    else Known(shape[..|shape| - 1]) * (if shape[|shape| - 1] == -1 then 1 else shape[|shape| - 1])
  }

  /** Replaces -1 by the extent that makes the sizes agree. */
  function Expand(shape: seq<int>, total: nat): Option<seq<int>> {
    if -1 !in shape then Some(shape)
    else if Known(shape) == 0 || total % Known(shape) != 0 then None
    else Some(seq(|shape|, i requires 0 <= i < |shape| => if shape[i] == -1 then total / Known(shape) else shape[i]))
  }

  /** Reshapes B and flattens the batch axes of A, when the last axis stays and both factors keep their size. */
  function ReshapeTo(l: Lora, shape: seq<nat>): Option<Lora>
    requires WellShaped(l)
  {
    var n, m, r, cols := Dims(l), |shape|, Rank(l), l.A.shape[Dims(l) - 1];
    if m < 2 || shape[m - 1] != cols then None
    else
      var shapeA, shapeB := Ones(m - 2) + [r, cols], shape[..m - 1] + [r];
      if Product(shapeA) != Product(l.A.shape) || Product(shapeB) != Product(l.B.shape) then None
      else Some(Lora(Reshape(l.A, shapeA), Reshape(l.B, shapeB)))
  }

  /** The requested shape with -1 filled in, if it is a shape. */
  function FullShape(l: Lora, shape: seq<int>): Option<seq<nat>>
    requires WellShaped(l)
  {
    match Expand(shape, Product(Shape(l)))
    case None => None
    case Some(full) =>
      if exists i :: 0 <= i < |full| && full[i] < 0 then None
      else Some(seq(|full|, i requires 0 <= i < |full| => if full[i] < 0 then 0 else full[i]))
  }

  function ReshapeLora(l: Lora, shape: seq<int>): Option<Lora>
    requires WellShaped(l)
  {
    if |shape| < 2 then None
    else match FullShape(l, shape)
      case None => None
      case Some(full) => ReshapeTo(l, full)
  }

  lemma {:induction false} ProductOnes(n: nat)
    ensures Product(Ones(n)) == 1
  {
    if n > 0 {
      ProductOnes(n - 1);
      assert Ones(n)[..n - 1] == Ones(n - 1);
    }
  }

  /** A factor A that fits the flattened shape has batch extents 1, unless it is empty. */
  lemma BatchIsOnes(shapeA: seq<nat>, m: nat, r: nat, cols: nat)
    requires |shapeA| >= 2 && shapeA[|shapeA| - 2] == r && shapeA[|shapeA| - 1] == cols
    requires Product(Ones(m) + [r, cols]) == Product(shapeA) && r > 0 && cols > 0
    ensures AllOnes(shapeA[..|shapeA| - 2])
  {
    var n := |shapeA| - 2;
    var batch := shapeA[..n];
    assert shapeA == batch + [r] + [cols];
    ProductSnoc(batch + [r], cols);
    ProductSnoc(batch, r);
    assert Ones(m) + [r, cols] == Ones(m) + [r] + [cols];
    ProductSnoc(Ones(m) + [r], cols);
    ProductSnoc(Ones(m), r);
    ProductOnes(m);
    CancelFactors(Product(batch), r, cols);
    ProductOneIsOnes(batch);
  }

  lemma CancelFactors(b: nat, r: nat, cols: nat)
    requires r > 0 && cols > 0 && b * r * cols == 1 * r * cols
    ensures b == 1
  {
    var x := r * cols;
    assert x > 0;
    assert b * x == b * r * cols;
    assert (b - 1) * x == 0;
  }

  /** The flattened A has the entries of A. */
  lemma FlattenedRight(shapeA: seq<nat>, m: nat, r: nat, cols: nat, k: nat, j: nat)
    requires |shapeA| >= 2 && shapeA[|shapeA| - 2] == r && shapeA[|shapeA| - 1] == cols
    requires AllOnes(shapeA[..|shapeA| - 2]) && k < r && j < cols
    ensures Unflat(Flat(Zeros(m) + [k, j], Ones(m) + [r, cols]), shapeA) == Zeros(|shapeA| - 2) + [k, j]
  {
    var n := |shapeA| - 2;
    LastTwo(shapeA);
    OneByOne(Zeros(m), k, j);
    OneByOne(Ones(m), r, cols);
    OneByOne(Zeros(n), k, j);
    FlatOnes(m, Ones(m));
    FlatOnes(n, shapeA[..n]);
    LastTwoKept(Zeros(m), k, j, Ones(m), shapeA[..n], r, cols);
  }

  lemma LastTwo(s: seq<nat>)
    requires |s| >= 2
    ensures s == s[..|s| - 2] + [s[|s| - 2]] + [s[|s| - 1]]
  {
  }

  lemma OneByOne(s: seq<nat>, a: nat, b: nat)
    ensures s + [a, b] == s + [a] + [b]
  {
  }

  lemma LastTwoKept(i: Index, k: nat, j: nat, from: seq<nat>, to: seq<nat>, r: nat, cols: nat)
    requires |i| == |from| && k < r && j < cols
    ensures Unflat(Flat(i + [k] + [j], from + [r] + [cols]), to + [r] + [cols]) == Unflat(Flat(i, from), to) + [k] + [j]
  {
    LastAxisKept(i + [k], j, from + [r], to + [r], cols);
    LastAxisKept(i, k, from, to, r);
  }

  lemma ReshapeEntry(l: Lora, shape: seq<nat>, idx: Index)
    requires Broadcasts(l) && ReshapeTo(l, shape).Some? && InShape(idx, shape)
    ensures WellShaped(ReshapeTo(l, shape).value)
    ensures MultiplyOut(ReshapeTo(l, shape).value).at(idx) == Reshape(MultiplyOut(l), shape).at(idx)
  {
    var n, m, r, cols := Dims(l), |shape|, Rank(l), l.A.shape[Dims(l) - 1];
    var g := ReshapeTo(l, shape).value;
    var rows := l.B.shape[..n - 1];
    var i, j := idx[..m - 1], idx[m - 1];
    var idx' := Unflat(Flat(idx, shape), Shape(l));
    assert idx == i + [j] && shape == shape[..m - 1] + [cols];
    LastAxisKept(i, j, shape[..m - 1], rows, cols);
    var i' := Unflat(Flat(i, shape[..m - 1]), rows);
    assert idx' == i' + [j];
    UnflatLength(Flat(i, shape[..m - 1]), rows);
    if r > 0 {
      BatchIsOnes(l.A.shape, m - 2, r, cols);
    }
    forall k: nat | k < r
      ensures Left(g, idx, k) == Left(l, idx', k) && Right(g, idx, k) == Right(l, idx', k)
    {
      ReshapeLeft(l, shape, i, k);
      ReshapeRight(l, shape, idx, idx', k);
    }
    EntriesEqual(g, idx, l, idx');
  }

  lemma {:induction false} UnflatLength(n: nat, shape: seq<nat>)
    ensures |Unflat(n, shape)| == |shape|
    decreases |shape|
  {
    if shape != [] {
      UnflatLength(Quotient(n, shape[|shape| - 1]), shape[..|shape| - 1]);
    }
  }

  lemma ReshapeLeft(l: Lora, shape: seq<nat>, i: Index, k: nat)
    requires WellShaped(l) && |shape| >= 2 && |i| == |shape| - 1 && k < Rank(l)
    ensures var rows := l.B.shape[..Dims(l) - 1];
            Reshape(l.B, shape[..|shape| - 1] + [Rank(l)]).at(i + [k])
            == l.B.at(Unflat(Flat(i, shape[..|shape| - 1]), rows) + [k])
  {
    var rows := l.B.shape[..Dims(l) - 1];
    assert l.B.shape == rows + [Rank(l)];
    LastAxisKept(i, k, shape[..|shape| - 1], rows, Rank(l));
  }

  lemma ReshapeRight(l: Lora, shape: seq<nat>, idx: Index, idx': Index, k: nat)
    requires WellShaped(l) && ReshapeTo(l, shape).Some? && InShape(idx, shape) && k < Rank(l)
    requires |idx'| == Dims(l) && idx'[Dims(l) - 1] == idx[|idx| - 1] && AllOnes(l.A.shape[..Dims(l) - 2])
    ensures WellShaped(ReshapeTo(l, shape).value)
    ensures Right(ReshapeTo(l, shape).value, idx, k) == Right(l, idx', k)
  {
    var n, m, r, cols := Dims(l), |shape|, Rank(l), l.A.shape[Dims(l) - 1];
    var g := ReshapeTo(l, shape).value;
    var j := idx[m - 1];
    FlattenedRight(l.A.shape, m - 2, r, cols, k, j);
    assert BatchOf(idx, g.A.shape, m - 2) == Zeros(m - 2);
    forall i | 0 <= i < n - 2 ensures l.A.shape[i] == 1 { assert l.A.shape[..n - 2][i] == 1; }
    assert BatchOf(idx', l.A.shape, n - 2) == Zeros(n - 2);
  }

  /** Whenever a reshape is not refused, it is the reshape of the product. */
  lemma ReshapeCommutes(l: Lora, shape: seq<int>)
    requires Broadcasts(l) && ReshapeLora(l, shape).Some?
    ensures Broadcasts(ReshapeLora(l, shape).value)
    ensures Same(MultiplyOut(ReshapeLora(l, shape).value), Reshape(MultiplyOut(l), FullShape(l, shape).value))
  {
    ReshapeToCommutes(l, FullShape(l, shape).value);
  }

  lemma ReshapeToCommutes(l: Lora, shape: seq<nat>)
    requires Broadcasts(l) && ReshapeTo(l, shape).Some?
    ensures Broadcasts(ReshapeTo(l, shape).value)
    ensures Same(MultiplyOut(ReshapeTo(l, shape).value), Reshape(MultiplyOut(l), shape))
  {
    var m, g := |shape|, ReshapeTo(l, shape).value;
    assert Shape(g) == shape;
    forall idx | InShape(idx, shape)
      ensures MultiplyOut(g).at(idx) == Reshape(MultiplyOut(l), shape).at(idx)
    {
      ReshapeEntry(l, shape, idx);
    }
  }

  // ----- stack and concatenate

  function As(ls: seq<Lora>): (ts: seq<Tensor>)
    ensures |ts| == |ls| && forall i :: 0 <= i < |ls| ==> ts[i] == ls[i].A
  {
    seq(|ls|, i requires 0 <= i < |ls| => ls[i].A)
  }

  function Bs(ls: seq<Lora>): (ts: seq<Tensor>)
    ensures |ts| == |ls| && forall i :: 0 <= i < |ls| ==> ts[i] == ls[i].B
  {
    seq(|ls|, i requires 0 <= i < |ls| => ls[i].B)
  }

  function Products(ls: seq<Lora>): (ts: seq<Tensor>)
    requires forall i :: 0 <= i < |ls| ==> WellShaped(ls[i])
    ensures |ts| == |ls| && forall i :: 0 <= i < |ls| ==> ts[i] == MultiplyOut(ls[i])
  {
    seq(|ls|, i requires 0 <= i < |ls| => MultiplyOut(ls[i]))
  }

  /** Tensors of one shape, as torch.stack requires. */
  predicate Alike(ls: seq<Lora>) {
    && ls != []
    && (forall i :: 0 <= i < |ls| ==> Broadcasts(ls[i]))
    && (forall i :: 0 <= i < |ls| ==> ls[i].A.shape == ls[0].A.shape && ls[i].B.shape == ls[0].B.shape)
  }

  function StackLora(ls: seq<Lora>): Lora
    requires ls != []
  {
    Lora(Stack(As(ls)), Stack(Bs(ls)))
  }

  lemma StackEntry(ls: seq<Lora>, idx: Index)
    requires Alike(ls) && |idx| == Dims(ls[0]) + 1 && idx[0] < |ls|
    ensures WellShaped(StackLora(ls))
    ensures MultiplyOut(StackLora(ls)).at(idx) == MultiplyOut(ls[idx[0]]).at(idx[1..])
  {
    var g, l, n := StackLora(ls), ls[idx[0]], Dims(ls[0]) + 1;
    var rest := idx[1..];
    forall k: nat | k < Rank(g)
      ensures Left(g, idx, k) == Left(l, rest, k) && Right(g, idx, k) == Right(l, rest, k)
    {
      assert (idx[..n - 1] + [k])[1..] == rest[..n - 2] + [k];
      var b := BatchOf(idx, g.A.shape, n - 2);
      assert b[0] == idx[0];
      assert (b + [k, idx[n - 1]])[1..] == BatchOf(rest, l.A.shape, n - 3) + [k, rest[n - 2]];
    }
    EntriesEqual(g, idx, l, rest);
  }

  /** Stacking the factors stacks the products. */
  lemma StackCommutes(ls: seq<Lora>)
    requires Alike(ls)
    ensures Broadcasts(StackLora(ls))
    ensures Same(MultiplyOut(StackLora(ls)), Stack(Products(ls)))
  {
    var g := StackLora(ls);
    assert Shape(g) == Stack(Products(ls)).shape;
    forall idx | InShape(idx, Shape(g))
      ensures MultiplyOut(g).at(idx) == Stack(Products(ls)).at(idx)
    {
      assert idx[0] < Shape(g)[0] == |ls|;
      StackEntry(ls, idx);
    }
  }

  /** In two dimensions the tensors must share A; then the rows of B are put together. */
  ghost function ConcatLora(ls: seq<Lora>): Option<Lora>
    requires Alike2D(ls)
  {
    if forall i :: 0 <= i < |ls| ==> Same(ls[i].A, ls[0].A) then Some(Lora(ls[0].A, Concat(Bs(ls)))) else None
  }

  /** Two-dimensional factors with the same rank and the same number of columns. */
  predicate Alike2D(ls: seq<Lora>) {
    && ls != []
    && (forall i :: 0 <= i < |ls| ==> WellShaped(ls[i]) && Dims(ls[i]) == 2)
    && (forall i :: 0 <= i < |ls| ==> Rank(ls[i]) == Rank(ls[0]))
  }

  lemma {:induction false} LocateAgrees(ts: seq<Tensor>, us: seq<Tensor>, i: nat)
    requires |ts| == |us|
    requires forall t :: t in ts ==> t.shape != []
    requires forall u :: u in us ==> u.shape != []
    requires forall j :: 0 <= j < |ts| ==> ts[j].shape != [] && us[j].shape != [] && ts[j].shape[0] == us[j].shape[0]
    ensures Locate(ts, i) == Locate(us, i) && Rows(ts) == Rows(us)
    decreases |ts|
  {
    if ts != [] {
      if i >= ts[0].shape[0] {
        LocateAgrees(ts[1..], us[1..], i - ts[0].shape[0]);
      } else {
        LocateAgrees(ts[1..], us[1..], 0);
      }
    }
  }

  lemma Factors2D(l: Lora, x: nat, y: nat, k: nat)
    requires WellShaped(l) && Dims(l) == 2
    ensures Left(l, [x, y], k) == l.B.at([x, k]) && Right(l, [x, y], k) == l.A.at([k, y])
  {
    assert [x, y][..1] + [k] == [x, k];
    assert BatchOf([x, y], l.A.shape, 0) + [k, y] == [k, y];
  }

  /** Row `x` of a concatenation. */
  lemma ConcatRow(ts: seq<Tensor>, x: nat, y: nat)
    requires ts != [] && forall t :: t in ts ==> t.shape != []
    requires x < Rows(ts)
    ensures var (n, i) := Locate(ts, x); n < |ts| && Concat(ts).at([x, y]) == ts[n].at([i, y])
  {
    LocateInside(ts, x);
    var (n, i) := Locate(ts, x);
    assert [x, y][1..] == [y] && [i] + [y] == [i, y];
  }

  lemma ConcatFactors(ls: seq<Lora>, g: Lora, x: nat, y: nat, n: nat, i: nat, k: nat)
    requires Alike2D(ls) && WellShaped(g) && Dims(g) == 2 && g.A == ls[0].A && n < |ls| && Same(ls[n].A, ls[0].A)
    requires k < ls[0].A.shape[0] && y < ls[0].A.shape[1] && g.B.at([x, k]) == ls[n].B.at([i, k])
    ensures Left(g, [x, y], k) == Left(ls[n], [i, y], k) && Right(g, [x, y], k) == Right(ls[n], [i, y], k)
  {
    Factors2D(g, x, y, k);
    Factors2D(ls[n], i, y, k);
    assert InShape([k, y], ls[n].A.shape);
  }

  lemma ConcatEntry(ls: seq<Lora>, x: nat, y: nat)
    requires Alike2D(ls) && ConcatLora(ls).Some? && y < ls[0].A.shape[1]
    requires forall t :: t in Bs(ls) ==> t.shape != []
    requires x < Rows(Bs(ls))
    ensures WellShaped(ConcatLora(ls).value)
    ensures var (n, i) := Locate(Bs(ls), x);
            n < |ls| && MultiplyOut(ConcatLora(ls).value).at([x, y]) == MultiplyOut(ls[n]).at([i, y])
  {
    var g := ConcatLora(ls).value;
    LocateInside(Bs(ls), x);
    var (n, i) := Locate(Bs(ls), x);
    forall k: nat | k < Rank(g)
      ensures Left(g, [x, y], k) == Left(ls[n], [i, y], k) && Right(g, [x, y], k) == Right(ls[n], [i, y], k)
    {
      ConcatRow(Bs(ls), x, k);
      ConcatFactors(ls, g, x, y, n, i, k);
    }
    EntriesEqual(g, [x, y], ls[n], [i, y]);
  }

  lemma ProductRows(ls: seq<Lora>)
    requires forall i :: 0 <= i < |ls| ==> WellShaped(ls[i])
    ensures (forall t :: t in Bs(ls) ==> t.shape != []) && (forall t :: t in Products(ls) ==> t.shape != [])
    ensures Rows(Bs(ls)) == Rows(Products(ls))
  {
    forall j | 0 <= j < |ls|
      ensures Bs(ls)[j].shape != [] && Products(ls)[j].shape != [] && Bs(ls)[j].shape[0] == Products(ls)[j].shape[0]
    {
      assert WellShaped(ls[j]);
    }
    LocateAgrees(Bs(ls), Products(ls), 0);
  }

  lemma ConcatShapes(ls: seq<Lora>)
    requires Alike2D(ls) && ConcatLora(ls).Some?
    ensures forall t :: t in Bs(ls) ==> t.shape != []
    ensures forall t :: t in Products(ls) ==> t.shape != []
    ensures Broadcasts(ConcatLora(ls).value)
    ensures Shape(ConcatLora(ls).value) == [Rows(Bs(ls)), ls[0].A.shape[1]] == Concat(Products(ls)).shape
  {
    ProductRows(ls);
    assert Concat(Products(ls)).shape == [Rows(Bs(ls))] + Shape(ls[0])[1..];
    assert Shape(ls[0])[1..] == [ls[0].A.shape[1]];
  }

  lemma ConcatRowCommutes(ls: seq<Lora>, x: nat, y: nat)
    requires Alike2D(ls) && ConcatLora(ls).Some? && y < ls[0].A.shape[1]
    requires (forall t :: t in Bs(ls) ==> t.shape != []) && (forall t :: t in Products(ls) ==> t.shape != [])
    requires x < Rows(Bs(ls)) && WellShaped(ConcatLora(ls).value)
    ensures MultiplyOut(ConcatLora(ls).value).at([x, y]) == Concat(Products(ls)).at([x, y])
  {
    LocateAgrees(Bs(ls), Products(ls), x);
    ConcatEntry(ls, x, y);
    ConcatRow(Products(ls), x, y);
  }

  /** Concatenating tensors with a shared A concatenates the products. */
  lemma ConcatCommutes(ls: seq<Lora>)
    requires Alike2D(ls) && ConcatLora(ls).Some?
    ensures Broadcasts(ConcatLora(ls).value)
    ensures forall t :: t in Products(ls) ==> t.shape != []
    ensures Same(MultiplyOut(ConcatLora(ls).value), Concat(Products(ls)))
  {
    ConcatShapes(ls);
    forall idx | InShape(idx, Shape(ConcatLora(ls).value))
      ensures MultiplyOut(ConcatLora(ls).value).at(idx) == Concat(Products(ls)).at(idx)
    {
      assert idx == [idx[0], idx[1]];
      ConcatRowCommutes(ls, idx[0], idx[1]);
    }
  }

  // ----- concatenation along a batch axis

  /** Tensors with batch axes that differ at most in the extent of the first, as torch.cat requires. */
  predicate AlikeBatches(ls: seq<Lora>) {
    && ls != [] && Dims(ls[0]) > 2
    && (forall i :: 0 <= i < |ls| ==> Broadcasts(ls[i]) && Dims(ls[i]) == Dims(ls[0]))
    && (forall i :: 0 <= i < |ls| ==> ls[i].A.shape[1..] == ls[0].A.shape[1..] && ls[i].B.shape[1..] == ls[0].B.shape[1..])
  }

  lemma AllHaveBatches(ls: seq<Lora>)
    requires AlikeBatches(ls)
    ensures forall t :: t in As(ls) ==> t.shape != []
    ensures forall t :: t in Bs(ls) ==> t.shape != []
    ensures forall t :: t in Products(ls) ==> t.shape != []
  {
  }

  function ConcatBatches(ls: seq<Lora>): Lora
    requires AlikeBatches(ls)
  {
    AllHaveBatches(ls);
    Lora(Concat(As(ls)), Concat(Bs(ls)))
  }

  /** Every tensor has its own batch of A, or all of them together have one entry of A. */
  predicate OwnBatches(ls: seq<Lora>)
    requires AlikeBatches(ls)
  {
    AllHaveBatches(ls);
    Rows(As(ls)) == 1 || forall i :: 0 <= i < |ls| ==> ls[i].A.shape[0] == ls[i].B.shape[0]
  }

  /** A tensor with an empty batch still brings an entry of A. */
  predicate Stray(l: Lora)
    requires WellShaped(l)
  {
    l.A.shape[0] == 1 && l.B.shape[0] == 0
  }

  lemma {:induction false} RowsCompare(ts: seq<Tensor>, us: seq<Tensor>)
    requires |ts| == |us|
    requires (forall t :: t in ts ==> t.shape != []) && (forall u :: u in us ==> u.shape != [])
    requires forall j :: 0 <= j < |ts| ==> ts[j].shape[0] <= us[j].shape[0]
    ensures Rows(ts) <= Rows(us)
    ensures Rows(ts) == Rows(us) <==> forall j :: 0 <= j < |ts| ==> ts[j].shape[0] == us[j].shape[0]
    decreases |ts|
  {
    if ts != [] {
      RowsCompare(ts[1..], us[1..]);
      assert forall j :: 0 < j < |ts| ==> ts[1..][j - 1] == ts[j] && us[1..][j - 1] == us[j];
    }
  }

  lemma ConcatBatchesOk(ls: seq<Lora>)
    requires AlikeBatches(ls)
    ensures (forall t :: t in As(ls) ==> t.shape != []) && (forall t :: t in Bs(ls) ==> t.shape != [])
    ensures var g := ConcatBatches(ls);
            && WellShaped(g) && Dims(g) == Dims(ls[0]) && Rank(g) == Rank(ls[0])
            && g.A.shape == [Rows(As(ls))] + ls[0].A.shape[1..] && g.B.shape == [Rows(Bs(ls))] + ls[0].B.shape[1..]
            && (Broadcasts(g) <==> Rows(As(ls)) == 1 || Rows(As(ls)) == Rows(Bs(ls)))
  {
    AllHaveBatches(ls);
    var g, l := ConcatBatches(ls), ls[0];
    assert forall i :: 0 < i < Dims(l) ==> g.A.shape[i] == l.A.shape[i] && g.B.shape[i] == l.B.shape[i];
    assert g.A.shape[0] == Rows(As(ls)) && g.B.shape[0] == Rows(Bs(ls));
  }

  /** The result can be multiplied out exactly when A has one row in all or as many as B; unless some tensor
      is stray, that is exactly when the batches are own ones. */
  lemma ConcatBatchesBroadcastIff(ls: seq<Lora>)
    requires AlikeBatches(ls)
    ensures (forall t :: t in As(ls) ==> t.shape != []) && (forall t :: t in Bs(ls) ==> t.shape != [])
    ensures Broadcasts(ConcatBatches(ls)) <==> Rows(As(ls)) == 1 || Rows(As(ls)) == Rows(Bs(ls))
    ensures (forall i :: 0 <= i < |ls| ==> !Stray(ls[i])) ==> (Broadcasts(ConcatBatches(ls)) <==> OwnBatches(ls))
  {
    ConcatBatchesOk(ls);
    if forall i :: 0 <= i < |ls| ==> !Stray(ls[i]) {
      RowsCompare(As(ls), Bs(ls));
    }
  }

  /** The only entry of A is found from every row. */
  lemma {:induction false} SoleEntry(ts: seq<Tensor>, us: seq<Tensor>, x: nat)
    requires |ts| == |us|
    requires (forall t :: t in ts ==> t.shape != []) && (forall u :: u in us ==> u.shape != [])
    requires forall j :: 0 <= j < |ts| ==> ts[j].shape[0] == 1 || ts[j].shape[0] == us[j].shape[0]
    requires Rows(ts) == 1 && x < Rows(us)
    ensures var (n, i) := Locate(us, x); n < |ts| && ts[n].shape[0] == 1 && Locate(ts, 0) == (n, 0)
    decreases |ts|
  {
    if ts[0].shape[0] == 0 {
      SoleEntry(ts[1..], us[1..], x);
    } else {
      NoRows(ts[1..], us[1..]);
    }
  }

  lemma {:induction false} NoRows(ts: seq<Tensor>, us: seq<Tensor>)
    requires |ts| == |us|
    requires (forall t :: t in ts ==> t.shape != []) && (forall u :: u in us ==> u.shape != [])
    requires forall j :: 0 <= j < |ts| ==> ts[j].shape[0] == 1 || ts[j].shape[0] == us[j].shape[0]
    requires Rows(ts) == 0
    ensures Rows(us) == 0
    decreases |ts|
  {
    if ts != [] {
      NoRows(ts[1..], us[1..]);
    }
  }

  lemma OwnLocation(ls: seq<Lora>, x: nat)
    requires AlikeBatches(ls) && OwnBatches(ls)
    requires (forall t :: t in As(ls) ==> t.shape != []) && (forall t :: t in Bs(ls) ==> t.shape != [])
    requires x < Rows(Bs(ls))
    ensures var (n, i) := Locate(Bs(ls), x);
            && n < |ls| && i < ls[n].B.shape[0]
            && Locate(As(ls), if Rows(As(ls)) == 1 then 0 else x) == (n, if ls[n].A.shape[0] == 1 then 0 else i)
  {
    LocateInside(Bs(ls), x);
    if Rows(As(ls)) == 1 {
      SoleEntry(As(ls), Bs(ls), x);
    } else {
      LocateAgrees(As(ls), Bs(ls), x);
    }
  }

  lemma ConcatLeft(ls: seq<Lora>, idx: Index, n: nat, i: nat, k: nat)
    requires AlikeBatches(ls) && WellShaped(ConcatBatches(ls)) && |idx| == Dims(ls[0]) == Dims(ConcatBatches(ls)) && n < |ls|
    requires (forall t :: t in Bs(ls) ==> t.shape != []) && Locate(Bs(ls), idx[0]) == (n, i)
    ensures Left(ConcatBatches(ls), idx, k) == Left(ls[n], [i] + idx[1..], k)
  {
    var d := |idx|;
    assert [i] + (idx[..d - 1] + [k])[1..] == ([i] + idx[1..])[..d - 1] + [k];
  }

  lemma ConcatRight(ls: seq<Lora>, idx: Index, n: nat, i: nat, k: nat)
    requires AlikeBatches(ls) && WellShaped(ConcatBatches(ls)) && |idx| == Dims(ls[0]) == Dims(ConcatBatches(ls)) && n < |ls|
    requires (forall t :: t in As(ls) ==> t.shape != [])
    requires ConcatBatches(ls).A.shape == [Rows(As(ls))] + ls[0].A.shape[1..]
    requires Locate(As(ls), if Rows(As(ls)) == 1 then 0 else idx[0]) == (n, if ls[n].A.shape[0] == 1 then 0 else i)
    ensures Right(ConcatBatches(ls), idx, k) == Right(ls[n], [i] + idx[1..], k)
  {
    var d, g, l := |idx|, ConcatBatches(ls), ls[n];
    var b := BatchOf(idx, g.A.shape, d - 2) + [k, idx[d - 1]];
    var b' := BatchOf([i] + idx[1..], l.A.shape, d - 2) + [k, ([i] + idx[1..])[d - 1]];
    SameTailShape(ls, n);
    forall j | 1 <= j < d
      ensures b[j] == b'[j]
    {
      assert j < d - 2 ==> g.A.shape[j] == ls[0].A.shape[1..][j - 1] == l.A.shape[j];
    }
    assert b[1..] == b'[1..];
    assert b' == [b'[0]] + b'[1..];
  }

  lemma SameTailShape(ls: seq<Lora>, n: nat)
    requires AlikeBatches(ls) && n < |ls|
    ensures forall j :: 0 < j < |ls[0].A.shape| ==> ls[n].A.shape[j] == ls[0].A.shape[j]
  {
    forall j | 0 < j < |ls[0].A.shape|
      ensures ls[n].A.shape[j] == ls[0].A.shape[j]
    {
      assert ls[n].A.shape[1..][j - 1] == ls[0].A.shape[1..][j - 1];
    }
  }

  lemma RankAlike(ls: seq<Lora>, n: nat)
    requires AlikeBatches(ls) && n < |ls|
    ensures Rank(ls[n]) == Rank(ls[0])
  {
    var d := Dims(ls[0]);
    assert ls[n].B.shape[1..][d - 2] == ls[0].B.shape[1..][d - 2];
  }

  lemma ConcatBatchEntry(ls: seq<Lora>, idx: Index)
    requires AlikeBatches(ls) && OwnBatches(ls) && |idx| == Dims(ls[0])
    requires forall t :: t in Bs(ls) ==> t.shape != []
    requires idx[0] < Rows(Bs(ls))
    ensures WellShaped(ConcatBatches(ls))
    ensures var (n, i) := Locate(Bs(ls), idx[0]);
            n < |ls| && MultiplyOut(ConcatBatches(ls)).at(idx) == MultiplyOut(ls[n]).at([i] + idx[1..])
  {
    ConcatBatchesOk(ls);
    OwnLocation(ls, idx[0]);
    var g := ConcatBatches(ls);
    var (n, i) := Locate(Bs(ls), idx[0]);
    RankAlike(ls, n);
    forall k: nat | k < Rank(g)
      ensures Left(g, idx, k) == Left(ls[n], [i] + idx[1..], k) && Right(g, idx, k) == Right(ls[n], [i] + idx[1..], k)
    {
      ConcatLeft(ls, idx, n, i, k);
      ConcatRight(ls, idx, n, i, k);
    }
    EntriesEqual(g, idx, ls[n], [i] + idx[1..]);
  }

  lemma OwnBroadcasts(ls: seq<Lora>)
    requires AlikeBatches(ls) && OwnBatches(ls)
    ensures Broadcasts(ConcatBatches(ls))
  {
    ConcatBatchesOk(ls);
    if Rows(As(ls)) != 1 {
      LocateAgrees(As(ls), Bs(ls), 0);
    }
  }

  lemma ConcatBatchShapes(ls: seq<Lora>)
    requires AlikeBatches(ls)
    ensures forall t :: t in Bs(ls) ==> t.shape != []
    ensures forall t :: t in Products(ls) ==> t.shape != []
    ensures WellShaped(ConcatBatches(ls)) && Shape(ConcatBatches(ls)) == Concat(Products(ls)).shape
    ensures Shape(ConcatBatches(ls))[0] == Rows(Bs(ls)) && |Shape(ConcatBatches(ls))| == Dims(ls[0])
  {
    ConcatBatchesOk(ls);
    ProductRows(ls);
    assert Concat(Products(ls)).shape == [Rows(Bs(ls))] + Shape(ls[0])[1..];
    TailShape(ls[0], ConcatBatches(ls));
  }

  lemma TailShape(l: Lora, g: Lora)
    requires WellShaped(l) && WellShaped(g) && Dims(l) == Dims(g) > 2
    requires g.A.shape[1..] == l.A.shape[1..] && g.B.shape[1..] == l.B.shape[1..]
    ensures Shape(g) == [g.B.shape[0]] + Shape(l)[1..]
  {
    var n := Dims(l);
    assert g.A.shape[n - 1] == g.A.shape[1..][n - 2] && l.A.shape[n - 1] == l.A.shape[1..][n - 2];
    forall i | 1 <= i < n - 1
      ensures Shape(g)[i] == Shape(l)[i]
    {
      assert g.B.shape[1..][i - 1] == l.B.shape[1..][i - 1];
    }
  }

  lemma ConcatBatchRow(ls: seq<Lora>, idx: Index)
    requires AlikeBatches(ls) && OwnBatches(ls) && |idx| == Dims(ls[0])
    requires (forall t :: t in Bs(ls) ==> t.shape != []) && (forall t :: t in Products(ls) ==> t.shape != [])
    requires idx[0] < Rows(Bs(ls)) && WellShaped(ConcatBatches(ls))
    ensures MultiplyOut(ConcatBatches(ls)).at(idx) == Concat(Products(ls)).at(idx)
  {
    LocateAgrees(Bs(ls), Products(ls), idx[0]);
    ConcatBatchEntry(ls, idx);
  }

  /** Then concatenating the factors concatenates the products. */
  lemma ConcatBatchesCommute(ls: seq<Lora>)
    requires AlikeBatches(ls) && OwnBatches(ls)
    ensures Broadcasts(ConcatBatches(ls))
    ensures forall t :: t in Products(ls) ==> t.shape != []
    ensures Same(MultiplyOut(ConcatBatches(ls)), Concat(Products(ls)))
  {
    OwnBroadcasts(ls);
    ConcatBatchShapes(ls);
    forall idx | InShape(idx, Shape(ConcatBatches(ls)))
      ensures MultiplyOut(ConcatBatches(ls)).at(idx) == Concat(Products(ls)).at(idx)
    {
      ConcatBatchRow(ls, idx);
    }
  }

  // ----- a stray entry of A

  function Constant(shape: seq<nat>, v: real): Tensor {
    Tensor(shape, _ => v)
  }

  /** An empty tensor with an entry of A, and one of two rows. */
  function StrayPair(): seq<Lora> {
    [Lora(Constant([1, 1, 1], 1.0), Constant([0, 1, 1], 1.0)), Lora(Constant([1, 1, 1], 2.0), Constant([2, 1, 1], 1.0))]
  }

  lemma StrayAlike()
    ensures AlikeBatches(StrayPair())
  {
    assert [1, 1, 1][1..] == [1, 1] && [0, 1, 1][1..] == [1, 1] && [2, 1, 1][1..] == [1, 1];
  }

  lemma StrayShapes()
    requires AlikeBatches(StrayPair())
    ensures var g := ConcatBatches(StrayPair());
            WellShaped(g) && Broadcasts(g) && Dims(g) == 3 && Rank(g) == 1 && Shape(g) == [2, 1, 1] && g.A.shape == [2, 1, 1]
    ensures forall t :: t in As(StrayPair()) ==> t.shape != []
    ensures forall t :: t in Products(StrayPair()) ==> t.shape != []
    ensures Locate(As(StrayPair()), 0) == (0, 0) && Locate(Products(StrayPair()), 0) == (1, 0)
  {
    var ls := StrayPair();
    AllHaveBatches(ls);
    ConcatBatchesOk(ls);
    TwoTensors(As(ls), 1, 1);
    TwoTensors(Bs(ls), 0, 2);
    TwoTensors(Products(ls), 0, 2);
  }

  lemma StrayEntry()
    requires AlikeBatches(StrayPair())
    ensures MultiplyOut(ConcatBatches(StrayPair())).at([0, 0, 0]) == 1.0
  {
    StrayShapes();
    var g := ConcatBatches(StrayPair());
    OneTerm(g, [0, 0, 0]);
    AllHaveBatches(StrayPair());
    TwoTensors(Bs(StrayPair()), 0, 2);
    assert BatchOf([0, 0, 0], g.A.shape, 1) + [0, 0] == [0, 0, 0];
    assert [0, 0, 0][..2] + [0] == [0, 0, 0];
    assert g.A.at([0, 0, 0]) == 1.0 && g.B.at([0, 0, 0]) == 1.0;
  }

  lemma StrayWanted()
    requires AlikeBatches(StrayPair()) && forall t :: t in Products(StrayPair()) ==> t.shape != []
    ensures Concat(Products(StrayPair())).at([0, 0, 0]) == 2.0
  {
    StrayShapes();
    var l := StrayPair()[1];
    assert [0] + [0, 0, 0][1..] == [0, 0, 0];
    OneTerm(l, [0, 0, 0]);
  }

  /** The factors multiply, but the first row meets the wrong A. */
  lemma StrayMisaligns()
    ensures var ls := StrayPair();
            && AlikeBatches(ls) && Stray(ls[0]) && (forall t :: t in Products(ls) ==> t.shape != [])
            && Broadcasts(ConcatBatches(ls)) && !Same(MultiplyOut(ConcatBatches(ls)), Concat(Products(ls)))
  {
    StrayAlike();
    StrayShapes();
    StrayEntry();
    StrayWanted();
    assert InShape([0, 0, 0], [2, 1, 1]);
  }

  lemma TwoTensors(ts: seq<Tensor>, a: nat, b: nat)
    requires |ts| == 2 && (forall t :: t in ts ==> t.shape != []) && ts[0].shape[0] == a && ts[1].shape[0] == b
    ensures Rows(ts) == a + b && Locate(ts, 0) == if a > 0 then (0, 0) else if b > 0 then (1, 0) else (2, 0)
  {
    assert ts[1..][1..] == [] && ts[1..][0] == ts[1];
    assert Rows(ts[1..]) == b + 0;
    assert Locate(ts[1..], 0) == if b > 0 then (0, 0) else (1, 0);
  }

  lemma OneTerm(l: Lora, idx: Index)
    requires WellShaped(l) && |idx| == Dims(l) && Rank(l) == 1
    ensures MultiplyOut(l).at(idx) == Left(l, idx, 0) * Right(l, idx, 0)
  {
    assert Sum(Term(l, idx), 1) == Sum(Term(l, idx), 0) + Term(l, idx)(0);
  }
}
