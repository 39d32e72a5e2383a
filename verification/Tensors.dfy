/** Dense tensors as a shape and the entry at each index, with the few torch operations the adapter
    converter uses. Entries are real numbers: rounding is not modelled. */
module Tensors {
  import opened Wrappers
  import opened Arithmetic

  type Index = seq<nat>

  datatype Tensor = Tensor(shape: seq<nat>, at: Index -> real)

  predicate InShape(idx: Index, shape: seq<nat>) {
    |idx| == |shape| && forall i :: 0 <= i < |idx| ==> idx[i] < shape[i]
  }

  /** The same shape and the same entries. */
  ghost predicate Same(t: Tensor, u: Tensor) {
    t.shape == u.shape && forall idx :: InShape(idx, t.shape) ==> t.at(idx) == u.at(idx)
  }

  // ----- sums

  function Sum(f: nat -> real, n: nat): real {
    if n == 0 then 0.0 else Sum(f, n - 1) + f(n - 1)
  }

  lemma {:induction false} SumEqual(f: nat -> real, g: nat -> real, n: nat)
    requires forall k: nat :: k < n ==> f(k) == g(k)
    ensures Sum(f, n) == Sum(g, n)
  {
    if n > 0 {
      SumEqual(f, g, n - 1);
    }
  }

  // ----- indexing

  type Stride = n: nat | n > 0 witness 1

  /** A slice of one axis: everything, or every so many positions between two bounds. A bound may be missing,
      or count from the end. */
  datatype Slice = All | Range(lo: Option<int>, hi: Option<int>, step: Stride)

  function Clamp(x: int, extent: nat): (r: nat)
    ensures r <= extent
  {
    if x >= 0 then if x <= extent then x else extent
    else if x + extent >= 0 then x + extent
    else 0
  }

  function First(s: Slice, extent: nat): nat {
    if s.All? || s.lo.None? then 0 else Clamp(s.lo.value, extent)
  }

  function Limit(s: Slice, extent: nat): nat {
    if s.All? || s.hi.None? then extent else Clamp(s.hi.value, extent)
  }

  /** How many of the positions 0, d, 2d, ... are below `n`. */
  function Count(n: nat, d: Stride): nat {
    if n == 0 then 0 else 1 + Count(if n > d then n - d else 0, d)
  }

  /** How many positions a slice takes. */
  function Extent(s: Slice, extent: nat): nat {
    if s.All? then extent
    else if First(s, extent) >= Limit(s, extent) then 0
    else Count(Limit(s, extent) - First(s, extent), s.step)
  }

  /** Where position `x` of a slice comes from. */
  function Place(s: Slice, extent: nat, x: nat): nat {
    if s.All? then x else First(s, extent) + x * s.step
  }

  lemma {:induction false} CountBound(n: nat, d: Stride)
    requires n > 0
    ensures 1 <= Count(n, d) <= n && (d > 1 && n > 1 ==> Count(n, d) < n)
    decreases n
  {
    if n > d {
      CountBound(n - d, d);
    }
  }

  lemma {:induction false} CountedIsBelow(n: nat, d: Stride, x: nat)
    requires x < Count(n, d)
    ensures x * d < n
    decreases n
  {
    if x > 0 {
      CountedIsBelow(if n > d then n - d else 0, d, x - 1);
      Distribute(x, d);
    }
  }

  lemma Distribute(x: nat, d: nat)
    requires x > 0
    ensures x * d == (x - 1) * d + d
  {
  }

  /** A slice takes positions of its axis. */
  lemma PlaceInside(s: Slice, extent: nat, x: nat)
    requires x < Extent(s, extent)
    ensures Place(s, extent, x) < extent
  {
    if s.Range? {
      CountedIsBelow(Limit(s, extent) - First(s, extent), s.step, x);
    }
  }

  /** A slice that takes as many positions as there are takes them all, in place. */
  lemma WholeSlice(s: Slice, extent: nat, x: nat)
    requires Extent(s, extent) == extent && x < extent
    ensures Place(s, extent, x) == x
  {
    if s.Range? {
      CountBound(Limit(s, extent) - First(s, extent), s.step);
      CountedIsBelow(Limit(s, extent) - First(s, extent), s.step, x);
    }
  }

  lemma ExtentBound(s: Slice, extent: nat)
    ensures Extent(s, extent) <= extent
  {
    if s.Range? && First(s, extent) < Limit(s, extent) {
      CountBound(Limit(s, extent) - First(s, extent), s.step);
    }
  }

  /** An axis is cut by a slice, or one position is picked and the axis goes. */
  datatype AxisIndex = Cut(slice: Slice) | Pick(j: int)

  predicate Valid(ix: AxisIndex, extent: nat) {
    ix.Pick? ==> 0 <= ix.j + extent && ix.j < extent
  }

  predicate AllValid(ix: seq<AxisIndex>, shape: seq<nat>) {
    |ix| == |shape| && forall i :: 0 <= i < |ix| ==> Valid(ix[i], shape[i])
  }

  /** A position that may count from the end. */
  function Wrapped(j: int, extent: nat): nat
    requires 0 <= j + extent && j < extent
  {
    if j < 0 then j + extent else j
  }

  function Extents(ix: seq<AxisIndex>, shape: seq<nat>): seq<nat>
    requires |ix| == |shape|
  {
    if ix == [] then []
    else (if ix[0].Cut? then [Extent(ix[0].slice, shape[0])] else []) + Extents(ix[1..], shape[1..])
  }

  /** Where an index into the result comes from. */
  function Source(idx: Index, ix: seq<AxisIndex>, shape: seq<nat>): Index
    requires AllValid(ix, shape)
    decreases |ix|
  {
    if ix == [] then []
    else if ix[0].Pick? then [Wrapped(ix[0].j, shape[0])] + Source(idx, ix[1..], shape[1..])
    else if idx == [] then []
    else [Place(ix[0].slice, shape[0], idx[0])] + Source(idx[1..], ix[1..], shape[1..])
  }

  function Indexed(t: Tensor, ix: seq<AxisIndex>): Tensor
    requires AllValid(ix, t.shape)
  {
    Tensor(Extents(ix, t.shape), idx => t.at(Source(idx, ix, t.shape)))
  }

  lemma {:induction false} ExtentsConcat(x: seq<AxisIndex>, y: seq<AxisIndex>, s: seq<nat>, t: seq<nat>)
    requires |x| == |s| && |y| == |t|
    ensures Extents(x + y, s + t) == Extents(x, s) + Extents(y, t)
    decreases |x|
  {
    if x == [] {
      assert x + y == y && s + t == t;
    } else {
      assert (x + y)[0] == x[0] && (x + y)[1..] == x[1..] + y;
      assert (s + t)[0] == s[0] && (s + t)[1..] == s[1..] + t;
      ExtentsConcat(x[1..], y, s[1..], t);
    }
  }

  lemma ValidConcat(x: seq<AxisIndex>, y: seq<AxisIndex>, s: seq<nat>, t: seq<nat>)
    requires AllValid(x, s) && AllValid(y, t)
    ensures AllValid(x + y, s + t)
  {
  }

  lemma {:induction false} SourceConcat(a: Index, b: Index, x: seq<AxisIndex>, y: seq<AxisIndex>, s: seq<nat>, t: seq<nat>)
    requires AllValid(x, s) && AllValid(y, t) && |a| == |Extents(x, s)|
    ensures AllValid(x + y, s + t) && Source(a + b, x + y, s + t) == Source(a, x, s) + Source(b, y, t)
    decreases |x|
  {
    ValidConcat(x, y, s, t);
    if x == [] {
      assert a + b == b && x + y == y && s + t == t;
    } else {
      assert (x + y)[0] == x[0] && (x + y)[1..] == x[1..] + y;
      assert (s + t)[0] == s[0] && (s + t)[1..] == s[1..] + t;
      if x[0].Pick? {
        SourceConcat(a, b, x[1..], y, s[1..], t);
      } else {
        assert (a + b)[0] == a[0] && (a + b)[1..] == a[1..] + b;
        SourceConcat(a[1..], b, x[1..], y, s[1..], t);
      }
    }
  }

  // ----- permute

  predicate IsPermutation(p: seq<nat>) {
    && (forall i :: 0 <= i < |p| ==> p[i] < |p|)
    && (forall i, j :: 0 <= i < j < |p| ==> p[i] != p[j])
    && (forall x: nat :: x < |p| ==> x in p)
  }

  /** Where `x` stands in `p`, or the length. */
  function Position(p: seq<nat>, x: nat): (i: nat)
    ensures i <= |p|
    ensures i < |p| ==> p[i] == x
    ensures i == |p| ==> x !in p
  {
    if p == [] then 0 else if p[0] == x then 0 else 1 + Position(p[1..], x)
  }

  /** The index into the original tensor: axis `j` is found at the place that holds `j` in `p`. */
  function Unpermuted(p: seq<nat>, idx: Index): Index {
    seq(|p|, j requires 0 <= j < |p| => if Position(p, j) < |idx| then idx[Position(p, j)] else 0)
  }

  function Permute(t: Tensor, p: seq<nat>): Tensor
    requires |p| == |t.shape| && IsPermutation(p)
  {
    Tensor(seq(|p|, i requires 0 <= i < |p| => t.shape[p[i]]), idx => t.at(Unpermuted(p, idx)))
  }

  // ----- reshape

  function Product(shape: seq<nat>): nat {
    if shape == [] then 1 else Product(shape[..|shape| - 1]) * shape[|shape| - 1]
  }

  /** The position of an index in row-major order. */
  function Flat(idx: Index, shape: seq<nat>): nat
    decreases |shape|
  {
    if shape == [] || |idx| != |shape| then 0
    else Flat(idx[..|idx| - 1], shape[..|shape| - 1]) * shape[|shape| - 1] + idx[|idx| - 1]
  }

  /** Quotient and remainder; an empty axis has no positions. */
  function Quotient(n: nat, s: nat): (q: nat) {
    if s == 0 then 0 else DivNatural(n, s); n / s
  }

  function Remainder(n: nat, s: nat): (m: nat) {
    if s == 0 then 0 else n % s
  }

  function Unflat(n: nat, shape: seq<nat>): Index
    decreases |shape|
  {
    if shape == [] then []
    else
      var s := shape[|shape| - 1];
      Unflat(Quotient(n, s), shape[..|shape| - 1]) + [Remainder(n, s)]
  }

  function Reshape(t: Tensor, shape: seq<nat>): Tensor {
    Tensor(shape, idx => t.at(Unflat(Flat(idx, shape), t.shape)))
  }

  lemma DivModStep(f: nat, r: nat, k: nat)
    requires k < r
    ensures Quotient(f * r + k, r) == f && Remainder(f * r + k, r) == k
  {
    var q, m := Quotient(f * r + k, r), Remainder(f * r + k, r);
    assert q * r + m == f * r + k;
    SameQuotient(r, q, m, f, k);
  }

  /** An axis that both shapes end in is left alone by a reshape. */
  lemma LastAxisKept(i: Index, k: nat, from: seq<nat>, to: seq<nat>, r: nat)
    requires k < r && |i| == |from|
    ensures Unflat(Flat(i + [k], from + [r]), to + [r]) == Unflat(Flat(i, from), to) + [k]
  {
    FlatSnoc(i, k, from, r);
    UnflatSnoc(Flat(i + [k], from + [r]), to, r);
  }

  lemma FlatSnoc(i: Index, k: nat, from: seq<nat>, r: nat)
    requires |i| == |from| && k < r
    ensures Quotient(Flat(i + [k], from + [r]), r) == Flat(i, from) && Remainder(Flat(i + [k], from + [r]), r) == k
  {
    assert (i + [k])[..|i|] == i && (from + [r])[..|from|] == from;
    DivModStep(Flat(i, from), r, k);
  }

  lemma UnflatSnoc(n: nat, to: seq<nat>, r: nat)
    ensures Unflat(n, to + [r]) == Unflat(Quotient(n, r), to) + [Remainder(n, r)]
  {
    assert (to + [r])[..|to|] == to;
  }

  predicate AllOnes(shape: seq<nat>) {
    forall i :: 0 <= i < |shape| ==> shape[i] == 1
  }

  function Zeros(n: nat): Index {
    seq(n, _ => 0)
  }

  lemma {:induction false} FlatOnes(n: nat, shape: seq<nat>)
    requires AllOnes(shape) && |shape| == n
    ensures Flat(Zeros(n), shape) == 0 && Unflat(0, shape) == Zeros(n)
    decreases n
  {
    if n > 0 {
      assert Zeros(n)[..n - 1] == Zeros(n - 1);
      FlatOnes(n - 1, shape[..n - 1]);
      assert shape[n - 1] == 1;
      assert Zeros(n) == Zeros(n - 1) + [0];
    }
  }

  lemma {:induction false} ProductOneIsOnes(shape: seq<nat>)
    requires Product(shape) == 1
    ensures AllOnes(shape)
    decreases |shape|
  {
    if shape != [] {
      var n := |shape| - 1;
      FactorsOfOne(Product(shape[..n]), shape[n]);
      ProductOneIsOnes(shape[..n]);
      forall i | 0 <= i < |shape| ensures shape[i] == 1 {
        if i < n { assert shape[i] == shape[..n][i]; }
      }
    }
  }

  lemma FactorsOfOne(a: nat, b: nat)
    requires a * b == 1
    ensures a == 1 && b == 1
  {
    if a > 1 && b > 0 {
      MulAtLeast(b, a);
    } else if b > 1 && a > 0 {
      MulAtLeast(a, b);
    }
  }

  lemma ProductSnoc(shape: seq<nat>, x: nat)
    ensures Product(shape + [x]) == Product(shape) * x
  {
    assert (shape + [x])[..|shape|] == shape;
  }

  // ----- stack and concatenate along the first axis

  function Stack(ts: seq<Tensor>): Tensor
    requires ts != []
  {
    Tensor([|ts|] + ts[0].shape, idx => if idx != [] && idx[0] < |ts| then ts[idx[0]].at(idx[1..]) else 0.0)
  }

  /** The tensor and the row in it that hold row `i` of the concatenation. */
  function Locate(ts: seq<Tensor>, i: nat): (nat, nat)
    requires forall t :: t in ts ==> t.shape != []
    decreases |ts|
  {
    if ts == [] then (0, i)
    else if i < ts[0].shape[0] then (0, i)
    else var r := Locate(ts[1..], i - ts[0].shape[0]); (r.0 + 1, r.1)
  }

  function Rows(ts: seq<Tensor>): nat
    requires forall t :: t in ts ==> t.shape != []
  {
    if ts == [] then 0 else ts[0].shape[0] + Rows(ts[1..])
  }

  lemma {:induction false} LocateInside(ts: seq<Tensor>, i: nat)
    requires (forall t :: t in ts ==> t.shape != []) && i < Rows(ts)
    ensures Locate(ts, i).0 < |ts| && Locate(ts, i).1 < ts[Locate(ts, i).0].shape[0]
    decreases |ts|
  {
    if ts != [] && i >= ts[0].shape[0] {
      LocateInside(ts[1..], i - ts[0].shape[0]);
    }
  }

  function Concat(ts: seq<Tensor>): Tensor
    requires ts != [] && forall t :: t in ts ==> t.shape != []
  {
    Tensor([Rows(ts)] + ts[0].shape[1..],
           idx => if idx == [] then 0.0
                  else var (n, i) := Locate(ts, idx[0]); if n < |ts| then ts[n].at([i] + idx[1..]) else 0.0)
  }
}
