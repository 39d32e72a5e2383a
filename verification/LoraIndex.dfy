/** Indexing a low-rank adapter tensor (convert_lora_to_gguf.py): a number, a slice, or a tuple of them. The
    factors are indexed; what must come out is the indexed product. */
module LoraIndex {
  import opened Wrappers
  import opened Arithmetic
  import opened Tensors
  import opened LoraTensor

  function Cuts(n: nat): (ix: seq<AxisIndex>)
    ensures |ix| == n && forall i :: 0 <= i < n ==> ix[i] == Cut(All)
  {
    seq(n, _ => Cut(All))
  }

  // ----- the operations

  /** The constructor checks the number of axes and the rank. */
  function MakeLora(A: Tensor, B: Tensor): Option<Lora> {
    if WellShaped(Lora(A, B)) then Some(Lora(A, B)) else None
  }

  function IndexFactors(l: Lora, ia: seq<AxisIndex>, ib: seq<AxisIndex>): Option<Lora> {
    if AllValid(ia, l.A.shape) && AllValid(ib, l.B.shape) then MakeLora(Indexed(l.A, ia), Indexed(l.B, ib)) else None
  }

  /** One number: both factors lose their first axis. */
  function GetInt(l: Lora, j: int): Option<Lora>
    requires WellShaped(l)
  {
    var ix := [Pick(j)] + Cuts(Dims(l) - 1);
    if Dims(l) > 2 then IndexFactors(l, ix, ix) else None
  }

  /** One slice: in two dimensions of the rows of B, otherwise of the first axis of both factors. */
  function GetSlice(l: Lora, s: Slice): Option<Lora>
    requires WellShaped(l)
  {
    var ix := [Cut(s)] + Cuts(Dims(l) - 1);
    if Dims(l) > 2 then IndexFactors(l, ix, ix)
    else if AllValid(ix, l.B.shape) then MakeLora(l.A, Indexed(l.B, ix))
    else None
  }

  /** A number for a batch axis is taken modulo the extent of A; slices of batch axes are not passed to A. */
  function IndicesA(full: seq<AxisIndex>, shape: seq<nat>): seq<AxisIndex>
    requires |full| == |shape| >= 2
  {
    var m := |full| - 2;
    BatchA(full[..m], shape[..m]) + [Cut(All), full[m + 1]]
  }

  function BatchA(fb: seq<AxisIndex>, sa: seq<nat>): (ab: seq<AxisIndex>)
    requires |fb| == |sa|
    ensures |ab| == |fb|
  {
    seq(|fb|, i requires 0 <= i < |fb| => if fb[i].Pick? && sa[i] > 0 then Pick(fb[i].j % sa[i]) else Cut(All))
  }

  /** Shorter tuples are filled up with full slices. */
  function Filled(ix: seq<AxisIndex>, n: nat): seq<AxisIndex>
    requires |ix| <= n
  {
    ix + Cuts(n - |ix|)
  }

  /** A tuple of numbers and slices. */
  function GetTuple(l: Lora, ix: seq<AxisIndex>): Option<Lora>
    requires WellShaped(l)
  {
    var n := Dims(l);
    if ix == [] || |ix| > n then None
    else
      var full := Filled(ix, n);
      if exists i :: 0 <= i < n - 2 && full[i].Pick? && l.A.shape[i] == 0 then None
      else IndexFactors(l, IndicesA(full, l.A.shape), full[..n - 1] + [Cut(All)])
  }

  // ----- batch axes

  /** An index of A agrees with one of the product on an axis where A has extent `a` and B extent `b`. */
  ghost predicate AxisAgrees(a: nat, b: nat, ia: AxisIndex, ix: AxisIndex) {
    && Valid(ia, a) && Valid(ix, b) && (ia.Pick? <==> ix.Pick?)
    && (ix.Pick? ==> Wrapped(ia.j, a) == if a == 1 then 0 else Wrapped(ix.j, b))
    && (ix.Cut? ==> CutAgrees(a, b, ia.slice, ix.slice))
  }

  ghost predicate CutAgrees(a: nat, b: nat, sa: Slice, s: Slice) {
    && (Extent(sa, a) == 1 || Extent(sa, a) == Extent(s, b))
    && forall x: nat :: x < Extent(s, b) ==> PlaceAgrees(a, b, sa, s, x)
  }

  predicate PlaceAgrees(a: nat, b: nat, sa: Slice, s: Slice, x: nat) {
    Place(sa, a, if Extent(sa, a) == 1 then 0 else x) == if a == 1 then 0 else Place(s, b, x)
  }

  ghost predicate AxesAgree(ab: seq<AxisIndex>, fb: seq<AxisIndex>, sa: seq<nat>, sb: seq<nat>) {
    && |ab| == |fb| == |sa| == |sb|
    && forall i :: 0 <= i < |fb| ==> AxisAgrees(sa[i], sb[i], ab[i], fb[i])
  }

  lemma AgreeTail(ab: seq<AxisIndex>, fb: seq<AxisIndex>, sa: seq<nat>, sb: seq<nat>)
    requires AxesAgree(ab, fb, sa, sb) && fb != []
    ensures AxesAgree(ab[1..], fb[1..], sa[1..], sb[1..]) && AxisAgrees(sa[0], sb[0], ab[0], fb[0])
  {
  }

  predicate Fits(p: seq<nat>, q: seq<nat>) {
    |p| == |q| && forall i :: 0 <= i < |p| ==> p[i] == 1 || p[i] == q[i]
  }

  lemma FitsCons(x: nat, y: nat, p: seq<nat>, q: seq<nat>)
    ensures Fits([x] + p, [y] + q) <==> (x == 1 || x == y) && Fits(p, q)
  {
    if Fits([x] + p, [y] + q) {
      assert ([x] + p)[0] == x && ([y] + q)[0] == y;
      forall i | 0 <= i < |p| ensures p[i] == 1 || p[i] == q[i] {
        assert ([x] + p)[i + 1] == p[i] && ([y] + q)[i + 1] == q[i];
      }
    }
  }

  predicate CutFits(a: nat, b: nat, ia: AxisIndex, ix: AxisIndex) {
    ia.Cut? && ix.Cut? ==> Extent(ia.slice, a) == 1 || Extent(ia.slice, a) == Extent(ix.slice, b)
  }

  /** What is left of the batch axes broadcasts exactly when it does on each axis that is left. */
  lemma {:induction false} FitsIff(ab: seq<AxisIndex>, fb: seq<AxisIndex>, sa: seq<nat>, sb: seq<nat>)
    requires |ab| == |fb| == |sa| == |sb| && SamePicks(ab, fb)
    ensures |Extents(ab, sa)| == |Extents(fb, sb)|
    ensures Fits(Extents(ab, sa), Extents(fb, sb)) <==> AllCutFit(ab, fb, sa, sb)
    decreases |fb|
  {
    if fb != [] {
      assert ab[0].Pick? <==> fb[0].Pick?;
      PicksTail(ab, fb);
      FitsIff(ab[1..], fb[1..], sa[1..], sb[1..]);
      ExtentsHead(ab, sa);
      ExtentsHead(fb, sb);
      if fb[0].Cut? {
        FitsCons(Extent(ab[0].slice, sa[0]), Extent(fb[0].slice, sb[0]), Extents(ab[1..], sa[1..]), Extents(fb[1..], sb[1..]));
      }
      TailOfAll(ab, fb, sa, sb);
    }
  }

  predicate SamePicks(ab: seq<AxisIndex>, fb: seq<AxisIndex>) {
    |ab| == |fb| && forall i :: 0 <= i < |fb| ==> (ab[i].Pick? <==> fb[i].Pick?)
  }

  lemma PicksTail(ab: seq<AxisIndex>, fb: seq<AxisIndex>)
    requires SamePicks(ab, fb) && fb != []
    ensures SamePicks(ab[1..], fb[1..])
  {
  }

  predicate AllCutFit(ab: seq<AxisIndex>, fb: seq<AxisIndex>, sa: seq<nat>, sb: seq<nat>)
    requires |ab| == |fb| == |sa| == |sb|
  {
    forall i :: 0 <= i < |fb| ==> CutFits(sa[i], sb[i], ab[i], fb[i])
  }

  lemma ExtentsHead(ix: seq<AxisIndex>, shape: seq<nat>)
    requires |ix| == |shape| && ix != []
    ensures ix[0].Cut? ==> Extents(ix, shape) == [Extent(ix[0].slice, shape[0])] + Extents(ix[1..], shape[1..])
    ensures ix[0].Pick? ==> Extents(ix, shape) == Extents(ix[1..], shape[1..])
  {
  }

  lemma TailOfAll(ab: seq<AxisIndex>, fb: seq<AxisIndex>, sa: seq<nat>, sb: seq<nat>)
    requires |ab| == |fb| == |sa| == |sb| && fb != []
    ensures AllCutFit(ab, fb, sa, sb) <==>
            CutFits(sa[0], sb[0], ab[0], fb[0]) && AllCutFit(ab[1..], fb[1..], sa[1..], sb[1..])
  {
    if AllCutFit(ab[1..], fb[1..], sa[1..], sb[1..]) {
      forall i | 1 <= i < |fb| ensures CutFits(sa[i], sb[i], ab[i], fb[i]) {
        assert CutFits(sa[1..][i - 1], sb[1..][i - 1], ab[1..][i - 1], fb[1..][i - 1]);
      }
    }
    if AllCutFit(ab, fb, sa, sb) {
      forall i | 0 <= i < |fb[1..]| ensures CutFits(sa[1..][i], sb[1..][i], ab[1..][i], fb[1..][i]) {
        assert CutFits(sa[i + 1], sb[i + 1], ab[i + 1], fb[i + 1]);
      }
    }
  }

  lemma {:induction false} SourceLength(idx: Index, ix: seq<AxisIndex>, shape: seq<nat>)
    requires AllValid(ix, shape) && |idx| == |Extents(ix, shape)|
    ensures |Source(idx, ix, shape)| == |ix|
    decreases |ix|
  {
    if ix != [] {
      SourceLength(if ix[0].Pick? then idx else idx[1..], ix[1..], shape[1..]);
    }
  }

  /** The batch index into A: an axis of extent 1 is repeated. */
  function Batch(idx: Index, shape: seq<nat>): Index
    requires |idx| == |shape|
  {
    BatchOf(idx, shape, |shape|)
  }

  lemma BatchCons(x: nat, idx: Index, a: nat, shape: seq<nat>)
    requires |idx| == |shape|
    ensures Batch([x] + idx, [a] + shape) == [if a == 1 then 0 else x] + Batch(idx, shape)
  {
  }

  /** Going from the result to the factor A is the same before and after indexing. */
  lemma {:induction false} BatchSource(idx: Index, ab: seq<AxisIndex>, fb: seq<AxisIndex>, sa: seq<nat>, sb: seq<nat>)
    requires AxesAgree(ab, fb, sa, sb) && AllValid(ab, sa) && AllValid(fb, sb) && InShape(idx, Extents(fb, sb))
    ensures |Extents(ab, sa)| == |idx| && |Source(idx, fb, sb)| == |sa|
    ensures Source(Batch(idx, Extents(ab, sa)), ab, sa) == Batch(Source(idx, fb, sb), sa)
    decreases |fb|
  {
    if fb != [] {
      AgreeTail(ab, fb, sa, sb);
      assert sa == [sa[0]] + sa[1..];
      if fb[0].Pick? {
        assert Extents(ab, sa) == Extents(ab[1..], sa[1..]) && Extents(fb, sb) == Extents(fb[1..], sb[1..]);
        BatchSource(idx, ab[1..], fb[1..], sa[1..], sb[1..]);
        BatchCons(Wrapped(fb[0].j, sb[0]), Source(idx, fb[1..], sb[1..]), sa[0], sa[1..]);
      } else {
        BatchSourceCut(idx, ab, fb, sa, sb);
      }
    }
  }

  lemma {:induction false} BatchSourceCut(idx: Index, ab: seq<AxisIndex>, fb: seq<AxisIndex>, sa: seq<nat>, sb: seq<nat>)
    requires AxesAgree(ab, fb, sa, sb) && AllValid(ab, sa) && AllValid(fb, sb) && InShape(idx, Extents(fb, sb))
    requires fb != [] && fb[0].Cut?
    ensures |Extents(ab, sa)| == |idx| && |Source(idx, fb, sb)| == |sa|
    ensures Source(Batch(idx, Extents(ab, sa)), ab, sa) == Batch(Source(idx, fb, sb), sa)
    decreases |fb|, 0
  {
    AgreeTail(ab, fb, sa, sb);
    assert sa == [sa[0]] + sa[1..];
    var e, rest := Extent(ab[0].slice, sa[0]), Extents(ab[1..], sa[1..]);
    assert Extents(fb, sb)[1..] == Extents(fb[1..], sb[1..]);
    assert idx[0] < Extents(fb, sb)[0] == Extent(fb[0].slice, sb[0]);
    TailInShape(idx, Extents(fb, sb));
    assert idx == [idx[0]] + idx[1..];
    assert PlaceAgrees(sa[0], sb[0], ab[0].slice, fb[0].slice, idx[0]);
    BatchSource(idx[1..], ab[1..], fb[1..], sa[1..], sb[1..]);
    BatchCons(idx[0], idx[1..], e, rest);
    BatchCons(Place(fb[0].slice, sb[0], idx[0]), Source(idx[1..], fb[1..], sb[1..]), sa[0], sa[1..]);
  }

  lemma TailInShape(idx: Index, shape: seq<nat>)
    requires InShape(idx, shape) && shape != []
    ensures InShape(idx[1..], shape[1..])
  {
  }

  // ----- the product

  /** The two factors of a tensor, its batch axes apart. */
  lemma Parts(l: Lora)
    requires WellShaped(l)
    ensures var m := Dims(l) - 2;
            && l.A.shape == l.A.shape[..m] + [Rank(l), l.A.shape[m + 1]]
            && l.B.shape == l.B.shape[..m] + [l.B.shape[m], Rank(l)]
            && Shape(l) == l.B.shape[..m] + [l.B.shape[m], l.A.shape[m + 1]]
  {
  }

  lemma TwoExtents(r: Slice, c: Slice, x: nat, y: nat)
    ensures Extents([Cut(r), Cut(c)], [x, y]) == [Extent(r, x), Extent(c, y)]
  {
    assert [Cut(r), Cut(c)][1..] == [Cut(c)] && [x, y][1..] == [y];
    assert [Cut(c)][1..] == [] && [y][1..] == [];
    assert Extents([Cut(c)], [y]) == [Extent(c, y)] + [];
  }

  lemma TwoSource(r: Slice, c: Slice, x: nat, y: nat, i: nat, j: nat)
    ensures AllValid([Cut(r), Cut(c)], [x, y])
    ensures Source([i, j], [Cut(r), Cut(c)], [x, y]) == [Place(r, x, i), Place(c, y, j)]
  {
    assert [Cut(r), Cut(c)][1..] == [Cut(c)] && [x, y][1..] == [y] && [i, j][1..] == [j];
    assert [Cut(c)][1..] == [] && [y][1..] == [] && [j][1..] == [];
    assert Source([j], [Cut(c)], [y]) == [Place(c, y, j)] + [];
  }

  lemma ExtentsEnd(x: seq<AxisIndex>, s: seq<nat>, r: Slice, c: Slice, p: nat, q: nat)
    requires |x| == |s|
    ensures Extents(x + [Cut(r), Cut(c)], s + [p, q]) == Extents(x, s) + [Extent(r, p), Extent(c, q)]
  {
    ExtentsConcat(x, [Cut(r), Cut(c)], s, [p, q]);
    TwoExtents(r, c, p, q);
  }

  lemma SourceEnd(idx: Index, x: seq<AxisIndex>, s: seq<nat>, r: Slice, c: Slice, p: nat, q: nat, i: nat, j: nat)
    requires AllValid(x, s) && |idx| == |Extents(x, s)|
    ensures AllValid(x + [Cut(r), Cut(c)], s + [p, q])
    ensures Source(idx + [i, j], x + [Cut(r), Cut(c)], s + [p, q]) == Source(idx, x, s) + [Place(r, p, i), Place(c, q, j)]
  {
    TwoSource(r, c, p, q, i, j);
    SourceConcat(idx, [i, j], x, [Cut(r), Cut(c)], s, [p, q]);
  }

  /** What an index is for the product, for A and for B. */
  datatype Plan = Plan(fb: seq<AxisIndex>, ab: seq<AxisIndex>, r: Slice, c: Slice)

  function OfProduct(p: Plan): seq<AxisIndex> { p.fb + [Cut(p.r), Cut(p.c)] }
  function OfA(p: Plan): seq<AxisIndex> { p.ab + [Cut(All), Cut(p.c)] }
  function OfB(p: Plan): seq<AxisIndex> { p.fb + [Cut(p.r), Cut(All)] }

  predicate Usable(l: Lora, p: Plan) {
    && WellShaped(l) && AllValid(p.ab, l.A.shape[..Dims(l) - 2]) && AllValid(p.fb, l.B.shape[..Dims(l) - 2])
    && SamePicks(p.ab, p.fb)
  }

  function Apply(l: Lora, p: Plan): Lora
    requires Usable(l, p)
  {
    PlanValid(l, p);
    Lora(Indexed(l.A, OfA(p)), Indexed(l.B, OfB(p)))
  }

  lemma PlanValid(l: Lora, p: Plan)
    requires Usable(l, p)
    ensures AllValid(OfA(p), l.A.shape) && AllValid(OfB(p), l.B.shape) && AllValid(OfProduct(p), Shape(l))
  {
    var m := Dims(l) - 2;
    Parts(l);
    ValidConcat(p.ab, [Cut(All), Cut(p.c)], l.A.shape[..m], [Rank(l), l.A.shape[m + 1]]);
    ValidConcat(p.fb, [Cut(p.r), Cut(All)], l.B.shape[..m], [l.B.shape[m], Rank(l)]);
    ValidConcat(p.fb, [Cut(p.r), Cut(p.c)], l.B.shape[..m], [l.B.shape[m], l.A.shape[m + 1]]);
  }

  lemma PlanShapes(l: Lora, p: Plan)
    requires Usable(l, p)
    ensures AllValid(OfProduct(p), Shape(l))
    ensures var m, g := Dims(l) - 2, Apply(l, p);
            && g.A.shape == Extents(p.ab, l.A.shape[..m]) + [Rank(l), Extent(p.c, l.A.shape[m + 1])]
            && g.B.shape == Extents(p.fb, l.B.shape[..m]) + [Extent(p.r, l.B.shape[m]), Rank(l)]
            && WellShaped(g) && Rank(g) == Rank(l) && Shape(g) == Extents(OfProduct(p), Shape(l))
  {
    var m := Dims(l) - 2;
    PlanValid(l, p);
    Parts(l);
    FitsIff(p.ab, p.fb, l.A.shape[..m], l.B.shape[..m]);
    ExtentsEnd(p.ab, l.A.shape[..m], All, p.c, Rank(l), l.A.shape[m + 1]);
    ExtentsEnd(p.fb, l.B.shape[..m], p.r, All, l.B.shape[m], Rank(l));
    ExtentsEnd(p.fb, l.B.shape[..m], p.r, p.c, l.B.shape[m], l.A.shape[m + 1]);
  }

  /** Exactly when the indexed factors multiply. */
  lemma PlanBroadcastsIff(l: Lora, p: Plan)
    requires Usable(l, p)
    ensures Broadcasts(Apply(l, p)) <==>
            forall i :: 0 <= i < |p.fb| ==> CutFits(l.A.shape[i], l.B.shape[i], p.ab[i], p.fb[i])
  {
    var m, g := Dims(l) - 2, Apply(l, p);
    PlanShapes(l, p);
    FitsIff(p.ab, p.fb, l.A.shape[..m], l.B.shape[..m]);
    var ea, eb := Extents(p.ab, l.A.shape[..m]), Extents(p.fb, l.B.shape[..m]);
    assert forall i :: 0 <= i < |ea| ==> g.A.shape[i] == ea[i] && g.B.shape[i] == eb[i];
    assert forall i :: 0 <= i < m ==> l.A.shape[..m][i] == l.A.shape[i] && l.B.shape[..m][i] == l.B.shape[i];
  }

  lemma ReplaceLast(idx: Index, x: nat, y: nat, k: nat)
    ensures (idx + [x, y])[..|idx| + 1] + [k] == idx + [x, k]
  {
  }

  /** Where an entry of the product comes from, its batch axes apart. */
  lemma ProductSource(l: Lora, p: Plan, idx: Index, x: nat, y: nat)
    requires Usable(l, p) && AllValid(OfProduct(p), Shape(l)) && |idx| == |Extents(p.fb, l.B.shape[..Dims(l) - 2])|
    ensures var m := Dims(l) - 2;
            && |Source(idx, p.fb, l.B.shape[..m])| == m
            && Source(idx + [x, y], OfProduct(p), Shape(l))
               == Source(idx, p.fb, l.B.shape[..m]) + [Place(p.r, l.B.shape[m], x), Place(p.c, l.A.shape[m + 1], y)]
  {
    var m := Dims(l) - 2;
    Parts(l);
    SourceEnd(idx, p.fb, l.B.shape[..m], p.r, p.c, l.B.shape[m], l.A.shape[m + 1], x, y);
    SourceLength(idx, p.fb, l.B.shape[..m]);
  }

  /** Where an entry of the indexed B comes from. */
  lemma FactorSource(l: Lora, p: Plan, idx: Index, x: nat, k: nat)
    requires Usable(l, p) && AllValid(OfB(p), l.B.shape) && |idx| == |Extents(p.fb, l.B.shape[..Dims(l) - 2])|
    ensures var m := Dims(l) - 2;
            Source(idx + [x, k], OfB(p), l.B.shape)
            == Source(idx, p.fb, l.B.shape[..m]) + [Place(p.r, l.B.shape[m], x), k]
  {
    var m := Dims(l) - 2;
    Parts(l);
    SourceEnd(idx, p.fb, l.B.shape[..m], p.r, All, l.B.shape[m], Rank(l), x, k);
  }

  lemma PlanLeft(l: Lora, p: Plan, idx: Index, x: nat, y: nat, k: nat)
    requires Usable(l, p) && WellShaped(Apply(l, p)) && AllValid(OfProduct(p), Shape(l))
    requires |idx| == |Extents(p.fb, l.B.shape[..Dims(l) - 2])| && |idx| + 2 == Dims(Apply(l, p))
    requires |Source(idx + [x, y], OfProduct(p), Shape(l))| == Dims(l)
    ensures Left(Apply(l, p), idx + [x, y], k) == Left(l, Source(idx + [x, y], OfProduct(p), Shape(l)), k)
  {
    var m := Dims(l) - 2;
    PlanValid(l, p);
    ProductSource(l, p, idx, x, y);
    FactorSource(l, p, idx, x, k);
    ReplaceLast(idx, x, y, k);
    ReplaceLast(Source(idx, p.fb, l.B.shape[..m]), Place(p.r, l.B.shape[m], x), Place(p.c, l.A.shape[m + 1], y), k);
  }

  lemma BatchPrefix(idx: Index, rest: Index, shape: seq<nat>, tail: seq<nat>)
    requires |idx| == |shape|
    ensures BatchOf(idx + rest, shape + tail, |shape|) == Batch(idx, shape)
  {
  }

  lemma PlanRight(l: Lora, p: Plan, idx: Index, x: nat, y: nat, k: nat)
    requires Usable(l, p) && WellShaped(Apply(l, p)) && AllValid(OfProduct(p), Shape(l))
    requires AxesAgree(p.ab, p.fb, l.A.shape[..Dims(l) - 2], l.B.shape[..Dims(l) - 2])
    requires InShape(idx, Extents(p.fb, l.B.shape[..Dims(l) - 2])) && |idx| + 2 == Dims(Apply(l, p))
    requires |Source(idx + [x, y], OfProduct(p), Shape(l))| == Dims(l)
    ensures Right(Apply(l, p), idx + [x, y], k) == Right(l, Source(idx + [x, y], OfProduct(p), Shape(l)), k)
  {
    var m, g := Dims(l) - 2, Apply(l, p);
    var sa, sb := l.A.shape[..m], l.B.shape[..m];
    var ea := Extents(p.ab, sa);
    Parts(l);
    PlanShapes(l, p);
    BatchSource(idx, p.ab, p.fb, sa, sb);
    BatchPrefix(idx, [x, y], ea, [Rank(l), Extent(p.c, l.A.shape[m + 1])]);
    SourceEnd(Batch(idx, ea), p.ab, sa, All, p.c, Rank(l), l.A.shape[m + 1], k, y);
    var base, tail := Source(idx, p.fb, sb), [Place(p.r, l.B.shape[m], x), Place(p.c, l.A.shape[m + 1], y)];
    SourceEnd(idx, p.fb, sb, p.r, p.c, l.B.shape[m], l.A.shape[m + 1], x, y);
    BatchPrefix(base, tail, sa, [Rank(l), l.A.shape[m + 1]]);
  }

  /** When the index of A agrees with that of the product on every batch axis, the indexed factors multiply to
      the indexed product. */
  lemma PlanCommutes(l: Lora, p: Plan)
    requires Usable(l, p) && AxesAgree(p.ab, p.fb, l.A.shape[..Dims(l) - 2], l.B.shape[..Dims(l) - 2])
    ensures AllValid(OfProduct(p), Shape(l)) && WellShaped(Apply(l, p))
    ensures Same(MultiplyOut(Apply(l, p)), Indexed(MultiplyOut(l), OfProduct(p)))
  {
    PlanShapes(l, p);
    var g, whole := Apply(l, p), Indexed(MultiplyOut(l), OfProduct(p));
    forall idx | InShape(idx, Shape(g))
      ensures MultiplyOut(g).at(idx) == whole.at(idx)
    {
      PlanEntry(l, p, idx);
    }
  }

  lemma PlanEntry(l: Lora, p: Plan, idx: Index)
    requires Usable(l, p) && AxesAgree(p.ab, p.fb, l.A.shape[..Dims(l) - 2], l.B.shape[..Dims(l) - 2])
    requires AllValid(OfProduct(p), Shape(l)) && WellShaped(Apply(l, p)) && InShape(idx, Shape(Apply(l, p)))
    ensures MultiplyOut(Apply(l, p)).at(idx) == MultiplyOut(l).at(Source(idx, OfProduct(p), Shape(l)))
  {
    var g, d := Apply(l, p), |idx| - 2;
    var sb := l.B.shape[..Dims(l) - 2];
    PlanShapes(l, p);
    var ib, x, y := idx[..d], idx[d], idx[d + 1];
    assert idx == ib + [x, y];
    assert forall i :: 0 <= i < d ==> Shape(g)[i] == Extents(p.fb, sb)[i];
    SourceLength(idx, OfProduct(p), Shape(l));
    var from := Source(idx, OfProduct(p), Shape(l));
    forall k: nat | k < Rank(g)
      ensures Left(g, idx, k) == Left(l, from, k) && Right(g, idx, k) == Right(l, from, k)
    {
      PlanLeft(l, p, ib, x, y, k);
      PlanRight(l, p, ib, x, y, k);
    }
    EntriesEqual(g, idx, l, from);
  }

  // ----- one number

  lemma SamePickAgrees(a: nat, b: nat, j: int)
    requires (a == 1 || a == b) && Valid(Pick(j), a) && Valid(Pick(j), b)
    ensures AxisAgrees(a, b, Pick(j), Pick(j))
  {
  }

  lemma WholeCutAgrees(a: nat, b: nat, s: Slice)
    requires (a == 1 || a == b) && (a == 1 || Extent(s, b) == b)
    ensures AxisAgrees(a, b, Cut(All), Cut(s))
  {
    forall x: nat | x < Extent(s, b)
      ensures PlaceAgrees(a, b, All, s, x)
    {
      if a != 1 {
        WholeSlice(s, b, x);
      }
    }
  }

  /** The same index for the first axis of both factors, and all of the others. */
  function FirstAxis(ix: AxisIndex, n: nat): Plan
    requires n > 2
  {
    Plan([ix] + Cuts(n - 3), [ix] + Cuts(n - 3), All, All)
  }

  lemma FirstAxisIs(ix: AxisIndex, n: nat)
    requires n > 2
    ensures [ix] + Cuts(n - 1) == OfProduct(FirstAxis(ix, n)) == OfA(FirstAxis(ix, n)) == OfB(FirstAxis(ix, n))
  {
  }

  lemma FirstAxisUsable(l: Lora, ix: AxisIndex)
    requires WellShaped(l) && Dims(l) > 2
    ensures Usable(l, FirstAxis(ix, Dims(l))) <==> Valid(ix, l.A.shape[0]) && Valid(ix, l.B.shape[0])
  {
    var p, m := FirstAxis(ix, Dims(l)), Dims(l) - 2;
    assert p.fb[0] == ix && l.A.shape[..m][0] == l.A.shape[0] && l.B.shape[..m][0] == l.B.shape[0];
  }

  lemma FirstAxisAgrees(l: Lora, ix: AxisIndex)
    requires Broadcasts(l) && Dims(l) > 2 && AxisAgrees(l.A.shape[0], l.B.shape[0], ix, ix)
    ensures var p, m := FirstAxis(ix, Dims(l)), Dims(l) - 2; AxesAgree(p.ab, p.fb, l.A.shape[..m], l.B.shape[..m])
  {
    var p, m := FirstAxis(ix, Dims(l)), Dims(l) - 2;
    forall i | 0 <= i < m
      ensures AxisAgrees(l.A.shape[..m][i], l.B.shape[..m][i], p.ab[i], p.fb[i])
    {
      if i > 0 {
        WholeCutAgrees(l.A.shape[i], l.B.shape[i], All);
      }
    }
  }

  lemma FirstAxisIndexed(l: Lora, ix: AxisIndex)
    requires WellShaped(l) && Dims(l) > 2
    ensures var ixs := [ix] + Cuts(Dims(l) - 1); var p := FirstAxis(ix, Dims(l));
            && (IndexFactors(l, ixs, ixs).Some? <==> Usable(l, p))
            && (Usable(l, p) ==> IndexFactors(l, ixs, ixs) == Some(Apply(l, p)))
  {
    var n, p := Dims(l), FirstAxis(ix, Dims(l));
    FirstAxisIs(ix, n);
    FirstAxisUsable(l, ix);
    assert ([ix] + Cuts(n - 1))[0] == ix;
    if Usable(l, p) {
      PlanShapes(l, p);
      PlanValid(l, p);
    }
  }

  /** A number is accepted exactly when there are batch axes and it is in range for both factors, and then it
      picks that part of the product. */
  lemma IntCommutesIff(l: Lora, j: int)
    requires Broadcasts(l)
    ensures GetInt(l, j).Some? <==> Dims(l) > 2 && Valid(Pick(j), l.A.shape[0]) && Valid(Pick(j), l.B.shape[0])
    ensures GetInt(l, j).Some? ==>
              var ixs := [Pick(j)] + Cuts(Dims(l) - 1);
              && AllValid(ixs, Shape(l)) && WellShaped(GetInt(l, j).value)
              && Same(MultiplyOut(GetInt(l, j).value), Indexed(MultiplyOut(l), ixs))
  {
    if Dims(l) > 2 {
      FirstAxisIndexed(l, Pick(j));
      FirstAxisUsable(l, Pick(j));
      if GetInt(l, j).Some? {
        FirstAxisIs(Pick(j), Dims(l));
        SamePickAgrees(l.A.shape[0], l.B.shape[0], j);
        FirstAxisAgrees(l, Pick(j));
        PlanCommutes(l, FirstAxis(Pick(j), Dims(l)));
      }
    }
  }

  // ----- one slice

  lemma SameCutAgrees(a: nat, b: nat, s: Slice)
    requires a == b || (a == 1 && (Extent(s, 1) == 1 || Extent(s, b) == 0))
    ensures AxisAgrees(a, b, Cut(s), Cut(s))
  {
    ExtentBound(s, 1);
    forall x: nat | x < Extent(s, b)
      ensures PlaceAgrees(a, b, s, s, x)
    {
      if a == 1 {
        PlaceInside(s, 1, 0);
      }
    }
  }

  /** With batch axes both factors are sliced by the same bounds. The result can be multiplied out exactly
      when the first axis of A is as long as that of B, or the slice keeps the only entry of A, or the slice
      takes nothing. */
  lemma BatchSliceBroadcastsIff(l: Lora, s: Slice)
    requires Broadcasts(l) && Dims(l) > 2
    ensures GetSlice(l, s).Some?
    ensures Broadcasts(GetSlice(l, s).value) <==>
            l.A.shape[0] == l.B.shape[0] || Extent(s, 1) == 1 || Extent(s, l.B.shape[0]) == 0
  {
    FirstAxisIndexed(l, Cut(s));
    FirstAxisUsable(l, Cut(s));
    FirstAxisBroadcastsIff(l, s);
    ExtentBound(s, 1);
  }

  lemma FirstAxisBroadcastsIff(l: Lora, s: Slice)
    requires Broadcasts(l) && Dims(l) > 2 && Usable(l, FirstAxis(Cut(s), Dims(l)))
    ensures Broadcasts(Apply(l, FirstAxis(Cut(s), Dims(l)))) <==>
            Extent(s, l.A.shape[0]) == 1 || Extent(s, l.A.shape[0]) == Extent(s, l.B.shape[0])
  {
    var p := FirstAxis(Cut(s), Dims(l));
    PlanBroadcastsIff(l, p);
    assert p.ab[0] == p.fb[0] == Cut(s);
    forall i | 0 < i < |p.fb|
      ensures CutFits(l.A.shape[i], l.B.shape[i], p.ab[i], p.fb[i])
    {
      assert p.ab[i] == p.fb[i] == Cut(All);
    }
    assert CutFits(l.A.shape[0], l.B.shape[0], p.ab[0], p.fb[0]) <==>
           Extent(s, l.A.shape[0]) == 1 || Extent(s, l.A.shape[0]) == Extent(s, l.B.shape[0]);
  }

  /** And then it is the slice of the product. */
  lemma BatchSliceCommutes(l: Lora, s: Slice)
    requires Broadcasts(l) && Dims(l) > 2 && GetSlice(l, s).Some? && Broadcasts(GetSlice(l, s).value)
    ensures var ixs := [Cut(s)] + Cuts(Dims(l) - 1);
            && AllValid(ixs, Shape(l)) && Same(MultiplyOut(GetSlice(l, s).value), Indexed(MultiplyOut(l), ixs))
  {
    BatchSliceBroadcastsIff(l, s);
    FirstAxisIndexed(l, Cut(s));
    FirstAxisUsable(l, Cut(s));
    FirstAxisIs(Cut(s), Dims(l));
    SameCutAgrees(l.A.shape[0], l.B.shape[0], s);
    FirstAxisAgrees(l, Cut(s));
    PlanCommutes(l, FirstAxis(Cut(s), Dims(l)));
  }

  lemma AllOfA(A: Tensor, i: nat, j: nat)
    requires |A.shape| == 2
    ensures AllValid([Cut(All), Cut(All)], A.shape)
    ensures Indexed(A, [Cut(All), Cut(All)]).at([i, j]) == A.at([i, j])
  {
    assert A.shape == [A.shape[0], A.shape[1]];
    TwoSource(All, All, A.shape[0], A.shape[1], i, j);
  }

  /** In two dimensions a slice takes rows, and that is the slice of the product. */
  lemma RowSliceCommutes(l: Lora, s: Slice)
    requires Broadcasts(l) && Dims(l) == 2
    ensures GetSlice(l, s).Some? && AllValid([Cut(s), Cut(All)], Shape(l))
    ensures WellShaped(GetSlice(l, s).value)
    ensures Same(MultiplyOut(GetSlice(l, s).value), Indexed(MultiplyOut(l), [Cut(s), Cut(All)]))
  {
    var p := Plan([], [], s, All);
    assert Usable(l, p);
    RowIndices(s);
    PlanCommutes(l, p);
    RowFactors(l, s);
    RowShapes(l, s);
    RowSliceDone(l, s, Apply(l, p).B);
    SameProduct(Lora(l.A, Apply(l, p).B), Apply(l, p));
  }

  lemma SameProduct(g: Lora, h: Lora)
    requires WellShaped(g) && WellShaped(h) && Dims(g) == Dims(h) == 2 && g.B == h.B && g.A.shape == h.A.shape
    requires AllValid([Cut(All), Cut(All)], g.A.shape) && h.A == Indexed(g.A, [Cut(All), Cut(All)])
    ensures Same(MultiplyOut(g), MultiplyOut(h))
  {
    forall idx | InShape(idx, Shape(h))
      ensures MultiplyOut(g).at(idx) == MultiplyOut(h).at(idx)
    {
      SameFactors(g, h, idx);
    }
  }

  lemma RowIndices(s: Slice)
    ensures [Cut(s)] + Cuts(1) == [Cut(s), Cut(All)]
    ensures OfProduct(Plan([], [], s, All)) == OfB(Plan([], [], s, All)) == [Cut(s), Cut(All)]
    ensures OfA(Plan([], [], s, All)) == [Cut(All), Cut(All)]
  {
  }

  lemma RowShapes(l: Lora, s: Slice)
    requires WellShaped(l) && Dims(l) == 2 && Usable(l, Plan([], [], s, All))
    ensures var h := Apply(l, Plan([], [], s, All));
            && h.A.shape == l.A.shape && h.B.shape == [Extent(s, l.B.shape[0]), Rank(l)] && WellShaped(h)
  {
    PlanShapes(l, Plan([], [], s, All));
    assert l.A.shape == [Rank(l), l.A.shape[1]];
  }

  lemma RowSliceIs(l: Lora, s: Slice)
    requires WellShaped(l) && Dims(l) == 2
    ensures AllValid([Cut(s), Cut(All)], l.B.shape)
    ensures GetSlice(l, s) == MakeLora(l.A, Indexed(l.B, [Cut(s), Cut(All)]))
  {
    RowIndices(s);
  }

  lemma RowFactors(l: Lora, s: Slice)
    requires WellShaped(l) && Dims(l) == 2 && Usable(l, Plan([], [], s, All))
    ensures AllValid([Cut(s), Cut(All)], l.B.shape) && AllValid([Cut(All), Cut(All)], l.A.shape)
    ensures Apply(l, Plan([], [], s, All)) == Lora(Indexed(l.A, [Cut(All), Cut(All)]), Indexed(l.B, [Cut(s), Cut(All)]))
  {
    RowIndices(s);
  }

  lemma RowSliceDone(l: Lora, s: Slice, B: Tensor)
    requires WellShaped(l) && Dims(l) == 2 && |B.shape| == 2 && B.shape[1] == Rank(l)
    requires AllValid([Cut(s), Cut(All)], l.B.shape) && B == Indexed(l.B, [Cut(s), Cut(All)])
    ensures GetSlice(l, s) == Some(Lora(l.A, B)) && WellShaped(Lora(l.A, B))
  {
    RowSliceIs(l, s);
  }

  lemma SameFactors(g: Lora, h: Lora, idx: Index)
    requires WellShaped(g) && WellShaped(h) && Dims(g) == Dims(h) == 2 && g.B == h.B && |idx| == 2
    requires AllValid([Cut(All), Cut(All)], g.A.shape) && h.A == Indexed(g.A, [Cut(All), Cut(All)])
    ensures MultiplyOut(g).at(idx) == MultiplyOut(h).at(idx)
  {
    forall k: nat | k < Rank(g)
      ensures Left(g, idx, k) == Left(h, idx, k) && Right(g, idx, k) == Right(h, idx, k)
    {
      AllOfA(g.A, k, idx[1]);
      assert BatchOf(idx, g.A.shape, 0) + [k, idx[1]] == [k, idx[1]] == BatchOf(idx, h.A.shape, 0) + [k, idx[1]];
    }
    EntriesEqual(g, idx, h, idx);
  }

  // ----- a tuple

  /** A number modulo the extent of A is the same place as in B, whether A repeats or not. */
  lemma PickAgrees(a: nat, b: nat, j: int)
    requires (a == 1 || a == b) && Valid(Pick(j), b)
    ensures a > 0 && AxisAgrees(a, b, Pick(j % a), Pick(j))
  {
    if a == b {
      if j < 0 {
        WrapNegative(j, b);
      } else {
        assert j % b == j;
      }
    }
  }

  lemma WrapNegative(j: int, b: nat)
    requires j < 0 <= j + b
    ensures b > 0 && j % b == j + b
  {
    var q, r := j / b, j % b;
    assert j == q * b + r && j == -1 * b + (j + b);
    SameQuotient(b, q, r, -1, j + b);
  }

  function TuplePlan(l: Lora, full: seq<AxisIndex>): Plan
    requires WellShaped(l) && |full| == Dims(l) && full[Dims(l) - 2].Cut? && full[Dims(l) - 1].Cut?
  {
    var m := Dims(l) - 2;
    Plan(full[..m], BatchA(full[..m], l.A.shape[..m]), full[m].slice, full[m + 1].slice)
  }

  lemma TuplePlanIs(l: Lora, full: seq<AxisIndex>)
    requires WellShaped(l) && |full| == Dims(l) && full[Dims(l) - 2].Cut? && full[Dims(l) - 1].Cut?
    ensures var p := TuplePlan(l, full);
            && OfProduct(p) == full && OfA(p) == IndicesA(full, l.A.shape) && OfB(p) == full[..Dims(l) - 1] + [Cut(All)]
  {
  }

  /** The axis of A goes with that of B. */
  lemma BatchAPick(l: Lora, full: seq<AxisIndex>, i: nat)
    requires Broadcasts(l) && |full| == Dims(l) && AllValid(full, Shape(l)) && i < Dims(l) - 2 && full[i].Pick?
    ensures var m := Dims(l) - 2;
            && l.A.shape[i] > 0 && BatchA(full[..m], l.A.shape[..m])[i] == Pick(full[i].j % l.A.shape[i])
            && AxisAgrees(l.A.shape[i], l.B.shape[i], Pick(full[i].j % l.A.shape[i]), full[i])
  {
    assert Shape(l)[i] == l.B.shape[i] && Valid(full[i], Shape(l)[i]);
    PickAgrees(l.A.shape[i], l.B.shape[i], full[i].j);
  }

  lemma TupleUsable(l: Lora, full: seq<AxisIndex>)
    requires Broadcasts(l) && |full| == Dims(l) && AllValid(full, Shape(l))
    requires full[Dims(l) - 2].Cut? && full[Dims(l) - 1].Cut?
    ensures Usable(l, TuplePlan(l, full))
    ensures !exists i :: 0 <= i < Dims(l) - 2 && full[i].Pick? && l.A.shape[i] == 0
  {
    var m, p := Dims(l) - 2, TuplePlan(l, full);
    forall i | 0 <= i < m
      ensures Valid(p.ab[i], l.A.shape[..m][i]) && Valid(p.fb[i], l.B.shape[..m][i]) && (p.ab[i].Pick? <==> p.fb[i].Pick?)
      ensures full[i].Pick? ==> l.A.shape[i] > 0
    {
      assert l.A.shape[..m][i] == l.A.shape[i] && l.B.shape[..m][i] == l.B.shape[i];
      if full[i].Pick? {
        BatchAPick(l, full, i);
      }
    }
  }

  /** What the code computes from a filled tuple. */
  lemma FullTupleIs(l: Lora, full: seq<AxisIndex>)
    requires Broadcasts(l) && |full| == Dims(l) && AllValid(full, Shape(l))
    requires full[Dims(l) - 2].Cut? && full[Dims(l) - 1].Cut?
    ensures var p := TuplePlan(l, full);
            && Usable(l, p)
            && IndexFactors(l, IndicesA(full, l.A.shape), full[..Dims(l) - 1] + [Cut(All)]) == Some(Apply(l, p))
  {
    var p := TuplePlan(l, full);
    TupleUsable(l, full);
    TuplePlanIs(l, full);
    PlanValid(l, p);
    PlanShapes(l, p);
  }

  lemma TupleIs(l: Lora, ix: seq<AxisIndex>)
    requires Broadcasts(l) && 0 < |ix| <= Dims(l)
    requires var full := Filled(ix, Dims(l));
             AllValid(full, Shape(l)) && full[Dims(l) - 2].Cut? && full[Dims(l) - 1].Cut?
    ensures var p := TuplePlan(l, Filled(ix, Dims(l))); Usable(l, p) && GetTuple(l, ix) == Some(Apply(l, p))
  {
    TupleUsable(l, Filled(ix, Dims(l)));
    FullTupleIs(l, Filled(ix, Dims(l)));
  }

  /** A tuple of numbers for batch axes and slices, possibly short, gives factors that multiply exactly when on
      each sliced batch axis A has extent 1 or the slice takes everything. */
  lemma TupleBroadcastsIff(l: Lora, ix: seq<AxisIndex>)
    requires Broadcasts(l) && 0 < |ix| <= Dims(l)
    requires var full := Filled(ix, Dims(l));
             AllValid(full, Shape(l)) && full[Dims(l) - 2].Cut? && full[Dims(l) - 1].Cut?
    ensures GetTuple(l, ix).Some?
    ensures Broadcasts(GetTuple(l, ix).value) <==>
            forall i :: 0 <= i < Dims(l) - 2 ==> AxisKept(l, Filled(ix, Dims(l))[i], i)
  {
    var full, m := Filled(ix, Dims(l)), Dims(l) - 2;
    var p := TuplePlan(l, full);
    TupleIs(l, ix);
    PlanBroadcastsIff(l, p);
    forall i | 0 <= i < m
      ensures CutFits(l.A.shape[i], l.B.shape[i], p.ab[i], p.fb[i]) <==> AxisKept(l, full[i], i)
    {
      if full[i].Pick? {
        BatchAPick(l, full, i);
      }
    }
  }

  predicate AxisKept(l: Lora, ix: AxisIndex, i: nat)
    requires WellShaped(l) && i < Dims(l) - 2
  {
    ix.Cut? ==> l.A.shape[i] == 1 || Extent(ix.slice, l.B.shape[i]) == l.B.shape[i]
  }

  /** And then they give the indexed product. */
  lemma TupleCommutes(l: Lora, ix: seq<AxisIndex>)
    requires Broadcasts(l) && 0 < |ix| <= Dims(l)
    requires var full := Filled(ix, Dims(l));
             AllValid(full, Shape(l)) && full[Dims(l) - 2].Cut? && full[Dims(l) - 1].Cut?
    requires GetTuple(l, ix).Some? && Broadcasts(GetTuple(l, ix).value)
    ensures Same(MultiplyOut(GetTuple(l, ix).value), Indexed(MultiplyOut(l), Filled(ix, Dims(l))))
  {
    var full := Filled(ix, Dims(l));
    TupleBroadcastsIff(l, ix);
    TupleIs(l, ix);
    TuplePlanIs(l, full);
    TupleAgrees(l, full);
    PlanCommutes(l, TuplePlan(l, full));
  }

  lemma TupleAgrees(l: Lora, full: seq<AxisIndex>)
    requires Broadcasts(l) && |full| == Dims(l) && AllValid(full, Shape(l))
    requires full[Dims(l) - 2].Cut? && full[Dims(l) - 1].Cut?
    requires forall i :: 0 <= i < Dims(l) - 2 ==> AxisKept(l, full[i], i)
    ensures var p, m := TuplePlan(l, full), Dims(l) - 2; AxesAgree(p.ab, p.fb, l.A.shape[..m], l.B.shape[..m])
  {
    var p, m := TuplePlan(l, full), Dims(l) - 2;
    forall i | 0 <= i < m
      ensures AxisAgrees(l.A.shape[..m][i], l.B.shape[..m][i], p.ab[i], p.fb[i])
    {
      assert AxisKept(l, full[i], i);
      if full[i].Pick? {
        BatchAPick(l, full, i);
      } else {
        WholeCutAgrees(l.A.shape[i], l.B.shape[i], full[i].slice);
      }
    }
  }

  // ----- numbers for the last two axes

  function Size(x: AxisIndex): nat {
    if x.Cut? then 1 else 0
  }

  lemma TwoSizes(x: AxisIndex, y: AxisIndex, s: nat, t: nat)
    ensures |Extents([x, y], [s, t])| == Size(x) + Size(y)
  {
    assert [x, y][1..] == [y] && [s, t][1..] == [t];
    assert [y][1..] == [] && [t][1..] == [];
    assert |Extents([y], [t])| == Size(y) + |Extents([], [])|;
  }

  lemma EndSizes(p: seq<AxisIndex>, x: AxisIndex, y: AxisIndex, shape: seq<nat>)
    requires |shape| == |p| + 2
    ensures |Extents(p + [x, y], shape)| == |Extents(p, shape[..|p|])| + Size(x) + Size(y)
  {
    var m := |p|;
    assert shape == shape[..m] + [shape[m], shape[m + 1]];
    ExtentsConcat(p, [x, y], shape[..m], [shape[m], shape[m + 1]]);
    TwoSizes(x, y, shape[m], shape[m + 1]);
  }

  lemma BatchPicks(l: Lora, full: seq<AxisIndex>)
    requires Broadcasts(l) && |full| == Dims(l) && AllValid(full, Shape(l))
    ensures var m := Dims(l) - 2; SamePicks(BatchA(full[..m], l.A.shape[..m]), full[..m])
  {
    var m := Dims(l) - 2;
    var ab := BatchA(full[..m], l.A.shape[..m]);
    forall i | 0 <= i < m
      ensures ab[i].Pick? <==> full[..m][i].Pick?
    {
      if full[i].Pick? {
        BatchAPick(l, full, i);
      }
    }
  }

  lemma PickedAlike(l: Lora, full: seq<AxisIndex>)
    requires Broadcasts(l) && |full| == Dims(l) && AllValid(full, Shape(l))
    ensures var m := Dims(l) - 2;
            |Extents(BatchA(full[..m], l.A.shape[..m]), l.A.shape[..m])| == |Extents(full[..m], l.B.shape[..m])|
  {
    var m := Dims(l) - 2;
    BatchPicks(l, full);
    FitsIff(BatchA(full[..m], l.A.shape[..m]), full[..m], l.A.shape[..m], l.B.shape[..m]);
  }

  lemma FullSplits(full: seq<AxisIndex>, m: nat)
    requires |full| == m + 2
    ensures full == full[..m] + [full[m], full[m + 1]]
    ensures full[..m + 1] + [Cut(All)] == full[..m] + [full[m], Cut(All)]
  {
  }

  lemma TupleSizes(l: Lora, full: seq<AxisIndex>)
    requires Broadcasts(l) && |full| == Dims(l) && AllValid(full, Shape(l))
    ensures var m := Dims(l) - 2; var d := |Extents(full[..m], l.B.shape[..m])|;
            && |Extents(full, Shape(l))| == d + Size(full[m]) + Size(full[m + 1])
            && |Extents(full[..m + 1] + [Cut(All)], l.B.shape)| == d + Size(full[m]) + 1
            && |Extents(IndicesA(full, l.A.shape), l.A.shape)| == d + 1 + Size(full[m + 1])
  {
    var m := Dims(l) - 2;
    FullSplits(full, m);
    EndSizes(full[..m], full[m], full[m + 1], Shape(l));
    EndSizes(full[..m], full[m], Cut(All), l.B.shape);
    EndSizes(BatchA(full[..m], l.A.shape[..m]), Cut(All), full[m + 1], l.A.shape);
    PickedAlike(l, full);
    assert Shape(l)[..m] == l.B.shape[..m];
  }

  /** A tuple that picks one row or one column is refused; one that picks both is refused or, when the last
      batch extent happens to be the rank, gives factors whose product has an axis too many. */
  lemma VectorsNeverCommute(l: Lora, ix: seq<AxisIndex>)
    requires Broadcasts(l) && 0 < |ix| <= Dims(l)
    requires var full := Filled(ix, Dims(l));
             AllValid(full, Shape(l)) && (full[Dims(l) - 2].Pick? || full[Dims(l) - 1].Pick?)
    ensures GetTuple(l, ix).Some? ==>
              && WellShaped(GetTuple(l, ix).value)
              && Filled(ix, Dims(l))[Dims(l) - 2].Pick? && Filled(ix, Dims(l))[Dims(l) - 1].Pick?
              && |MultiplyOut(GetTuple(l, ix).value).shape| == |Indexed(MultiplyOut(l), Filled(ix, Dims(l))).shape| + 1
  {
    TupleSizes(l, Filled(ix, Dims(l)));
  }
}
