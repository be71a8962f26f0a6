/**
 LoraTorchTensor: a matrix kept as two factors, on which operations act lazily. What a pair stands for is the
 product of B and A over their last two axes; an axis of length 1 of A stands for every position of B's.
 */
module Lora {
  import opened RealSums
  import opened Tensors

  /** Where A is read for position `lead` of the leading axes. */
  function Lead(shape: Shape, lead: Index): (r: Index)
    requires |lead| <= |shape|
    ensures |r| == |lead|
  {
    seq(|lead|, i requires 0 <= i < |lead| => if shape[i] == 1 then 0 else lead[i])
  }

  /** The index of B for term `k` of element `idx`. */
  function InB(idx: Index, k: nat): Index
    requires idx != []
  {
    idx[..|idx| - 1] + [k]
  }

  /** The index of A, of this shape, for term `k` of element `idx`. */
  function InA(shape: Shape, idx: Index, k: nat): Index
    requires |idx| == |shape| >= 2
  {
    Lead(shape, idx[..|idx| - 2]) + [k, idx[|idx| - 1]]
  }

  /** A and B of these shapes and `rank` make a product of this shape. */
  predicate Multiplies(a: Shape, b: Shape, rank: nat, shape: Shape) {
    && |shape| == |a| == |b| >= 2
    && a[|a| - 2] == b[|b| - 1] == rank
    && a[|a| - 1] == shape[|a| - 1]
    && (forall i :: 0 <= i < |b| - 1 ==> shape[i] == b[i])
    && forall i :: 0 <= i < |a| - 2 ==> a[i] == 1 || a[i] == b[i]
  }

  lemma TermIndices(a: Shape, b: Shape, rank: nat, shape: Shape, idx: Index, k: nat)
    requires Multiplies(a, b, rank, shape) && InRange(shape, idx) && k < rank
    ensures InRange(b, InB(idx, k)) && InRange(a, InA(a, idx, k))
  {
  }

  /** The terms of the element at `idx` of the product of B and A. */
  ghost function Terms(a: View, b: View, idx: Index): int -> real {
    k => if k < 0 || |idx| != |a.shape| || |idx| < 2 then 0.0 else b.at(InB(idx, k)) * a.at(InA(a.shape, idx, k))
  }

  ghost function Element(a: View, b: View, rank: nat, idx: Index): real {
    Sum(Terms(a, b, idx), 0, rank)
  }

  /** The product of B and A. */
  ghost function Product(a: View, b: View, rank: nat, shape: Shape): View {
    View(shape, idx => Element(a, b, rank, idx))
  }

  datatype Pair = Pair(a: Tensor, b: Tensor) {
    /** What the constructor asserts. */
    predicate WellMade() {
      && a.Valid() && b.Valid()
      && |a.shape| == |b.shape| >= 2
      && a.shape[|a.shape| - 2] == b.shape[|b.shape| - 1]
    }

    function Rank(): nat
      requires WellMade()
    {
      b.shape[|b.shape| - 1]
    }

    function Columns(): nat
      requires WellMade()
    {
      a.shape[|a.shape| - 1]
    }

    function Shape(): Shape
      requires WellMade()
    {
      b.shape[..|b.shape| - 1] + [Columns()]
    }

    /** The factors can be multiplied: along a leading axis, A has length 1 or that of B. */
    predicate Valid() {
      WellMade() && Multiplies(a.shape, b.shape, Rank(), Shape())
    }

    /** The tensor the pair stands for. */
    ghost function Dense(): (t: Tensor)
      requires Valid()
      ensures t.Valid() && t.shape == Shape()
    {
      Store(Product(ViewOf(a), ViewOf(b), Rank(), Shape()))
    }
  }

  /** LoraTorchTensor(A, B) */
  function New(a: Tensor, b: Tensor): (r: Result<Pair>)
    requires a.Valid() && b.Valid()
    ensures r.Ok? ==> r.value == Pair(a, b) && r.value.WellMade()
  {
    if |a.shape| != |b.shape| then Err(AssertionFailed)
    else if |a.shape| < 2 then Err(BadArgument)
    else if a.shape[|a.shape| - 2] != b.shape[|b.shape| - 1] then Err(AssertionFailed)
    else Ok(Pair(a, b))
  }

  /** The constructor takes exactly factors of the same number of axes, at least two, and of one rank. */
  lemma NewAccepts(a: Tensor, b: Tensor)
    requires a.Valid() && b.Valid()
    ensures New(a, b).Ok? <==> Pair(a, b).WellMade()
    ensures New(a, b) == Err(AssertionFailed) <==>
            |a.shape| != |b.shape| || (|a.shape| >= 2 && a.shape[|a.shape| - 2] != b.shape[|b.shape| - 1])
  {
  }

  /** The same for factors that may have been refused themselves, A first. */
  function Join(a: Result<Tensor>, b: Result<Tensor>): (r: Result<Pair>)
    requires (a.Ok? ==> a.value.Valid()) && (b.Ok? ==> b.value.Valid())
    ensures r.Ok? ==> a.Ok? && b.Ok? && r.value == Pair(a.value, b.value) && r.value.WellMade()
  {
    match (a, b)
    case (Err(why), _) => Err(why)
    case (_, Err(why)) => Err(why)
    case (Ok(a), Ok(b)) => New(a, b)
  }

  predicate AllOnes(shape: Shape) {
    forall i :: 0 <= i < |shape| ==> shape[i] == 1
  }

  function Ones(n: nat): (r: Shape)
    ensures |r| == n && AllOnes(r)
  {
    seq(n, _ => 1)
  }

  function ReshapePair(p: Pair, shape: seq<int>): (r: Result<Pair>)
    requires p.WellMade()
    ensures r.Ok? ==> r.value.WellMade()
  {
    if |shape| < 2 then Err(Unsupported)
    else
      match Expand(shape, Volume(p.Shape()))
      case Err(why) => Err(why)
      case Ok(expanded) =>
        var n := |expanded|;
        if expanded[n - 1] != p.Columns() then Err(Unsupported)
        else
          Join(Reshaped(p.a, Ones(n - 2) + [p.Rank(), p.Columns()]), Reshaped(p.b, expanded[..n - 1] + [p.Rank()]))
  }

  /** Axes counted from the end. */
  function FromEnd(dims: seq<int>, n: nat): seq<int> {
    seq(|dims|, i requires 0 <= i < |dims| => if dims[i] >= 0 then dims[i] - n else dims[i])
  }

  function PermutePair(p: Pair, dims: seq<int>): (r: Result<Pair>)
    requires p.WellMade()
    ensures r.Ok? ==> r.value.WellMade()
  {
    var n, m := |p.b.shape|, |dims|;
    var fromEnd := FromEnd(dims, n);
    if m == 0 then Err(BadArgument)
    else if fromEnd[m - 1] == -1 then
      if !AllOnes(p.a.shape[..n - 2]) then Err(AssertionFailed)
      else Join(Ok(p.a), Apply(p.b, Permute(fromEnd)))
    else if n != 2 || fromEnd[m - 1] != -2 then Err(Unsupported)
    else if m < 2 then Err(BadArgument)
    else if fromEnd[m - 2] != -1 then Err(Unsupported)
    else Join(Apply(p.b, Permute(fromEnd)), Apply(p.a, Permute(fromEnd)))
  }

  function ApplyPair(p: Pair, op: Op): (r: Result<Pair>)
    requires p.WellMade()
    ensures r.Ok? ==> r.value.WellMade()
  {
    var n := |p.b.shape|;
    match op
    case Select(_) =>
      if n > 2 then Join(Apply(p.a, op), Apply(p.b, op)) else Err(Unsupported)
    case Slice(_, _) =>
      if n > 2 then Join(Apply(p.a, op), Apply(p.b, op)) else Join(Ok(p.a), Apply(p.b, op))
    case Reshape(shape) => ReshapePair(p, shape)
    case Permute(dims) => PermutePair(p, dims)
    case Swap(dim0, dim1) =>
      match SwappedAxes(dim0, dim1, n)
      case Err(why) => Err(why)
      case Ok(order) => PermutePair(p, order)
  }

  function RunPair(p: Pair, ops: seq<Op>): (r: Result<Pair>)
    requires p.WellMade()
    ensures r.Ok? ==> r.value.WellMade()
    decreases |ops|
  {
    if ops == [] then Ok(p)
    else
      match ApplyPair(p, ops[0])
      case Err(why) => Err(why)
      case Ok(next) => RunPair(next, ops[1..])
  }

  // ---------------------------------------------------------------- what a pair stands for

  lemma DenseAt(p: Pair, idx: Index)
    requires p.Valid() && InRange(p.Shape(), idx)
    ensures p.Dense().At(idx) == Element(ViewOf(p.a), ViewOf(p.b), p.Rank(), idx)
  {
    StoreAt(Product(ViewOf(p.a), ViewOf(p.b), p.Rank(), p.Shape()), idx);
  }

  /** Elements of two products with the same terms. */
  lemma SameElement(a: View, b: View, idx: Index, a': View, b': View, idx': Index, rank: nat)
    requires forall k: nat :: k < rank ==> Terms(a, b, idx)(k) == Terms(a', b', idx')(k)
    ensures Element(a, b, rank, idx) == Element(a', b', rank, idx')
  {
    SumSame(Terms(a, b, idx), Terms(a', b', idx'), 0, 0, rank);
  }

  /** Storing the factors does not change the product. */
  lemma StoredElement(a: View, b: View, rank: nat, shape: Shape, idx: Index)
    requires Multiplies(a.shape, b.shape, rank, shape) && InRange(shape, idx)
    ensures Element(ViewOf(Store(a)), ViewOf(Store(b)), rank, idx) == Element(a, b, rank, idx)
  {
    forall k: nat | k < rank
      ensures Terms(ViewOf(Store(a)), ViewOf(Store(b)), idx)(k) == Terms(a, b, idx)(k)
    {
      TermIndices(a.shape, b.shape, rank, shape, idx, k);
      StoreAt(b, InB(idx, k));
      StoreAt(a, InA(a.shape, idx, k));
    }
    SameElement(ViewOf(Store(a)), ViewOf(Store(b)), idx, a, b, idx, rank);
  }

  /** When the product of two views has the elements of `v`, the stored pair stands for the stored `v`. */
  lemma PairStandsFor(a: View, b: View, rank: nat, v: View)
    requires Multiplies(a.shape, b.shape, rank, v.shape)
    requires forall idx :: InRange(v.shape, idx) ==> v.at(idx) == Element(a, b, rank, idx)
    ensures var q := Pair(Store(a), Store(b)); q.Valid() && q.Dense() == Store(v)
  {
    var q := Pair(Store(a), Store(b));
    assert q.Shape() == v.shape;
    var product := Product(ViewOf(q.a), ViewOf(q.b), rank, v.shape);
    forall idx | InRange(v.shape, idx)
      ensures Store(v).At(idx) == product.at(idx)
    {
      StoreAt(v, idx);
      StoredElement(a, b, rank, v.shape, idx);
    }
    IsStore(Store(v), product);
  }

  // ---------------------------------------------------------------- t[start:stop]

  /** A slice of the first axis that both factors, with first axes of lengths `a` and `b`, can follow. */
  predicate Fits(a: nat, b: nat, start: int, stop: int) {
    a == b || (start <= 0 && stop >= 1) || SliceLength(start, stop, b) == 0
  }

  predicate SliceFits(p: Pair, op: Op)
    requires p.WellMade()
  {
    op.Slice? && |p.b.shape| > 2 ==> Fits(p.a.shape[0], p.b.shape[0], op.start, op.stop)
  }

  /** The shape of A for a slice of the pair. */
  function SlicedA(a: View, start: int, stop: int): View
    requires |a.shape| >= 2
  {
    if |a.shape| == 2 then a else Sliced(a, start, stop)
  }

  lemma SliceMultiplies(a: Shape, b: Shape, rank: nat, shape: Shape, start: int, stop: int)
    requires Multiplies(a, b, rank, shape) && (|a| > 2 ==> Fits(a[0], b[0], start, stop))
    ensures Multiplies(if |a| == 2 then a else SlicedShape(a, start, stop), SlicedShape(b, start, stop), rank,
                       SlicedShape(shape, start, stop))
  {
    SlicedEntries(b, start, stop);
    SlicedEntries(shape, start, stop);
    if |a| > 2 {
      SlicedEntries(a, start, stop);
    }
  }

  lemma SlicedEntries(shape: Shape, start: int, stop: int)
    requires shape != []
    ensures var r := SlicedShape(shape, start, stop);
            |r| == |shape| && r[0] == SliceLength(start, stop, shape[0]) && forall i :: 0 < i < |r| ==> r[i] == shape[i]
  {
  }

  lemma SliceInRange(shape: Shape, start: int, stop: int, idx: Index)
    requires shape != [] && InRange(SlicedShape(shape, start, stop), idx)
    ensures InRange(shape, Shifted(idx, Clip(start, shape[0])))
  {
    forall i | 1 <= i < |idx|
      ensures idx[i] < shape[i]
    {
      assert SlicedShape(shape, start, stop)[i] == shape[i];
    }
  }

  lemma ShiftInB(idx: Index, lo: nat, k: nat)
    requires |idx| >= 2
    ensures Shifted(InB(idx, k), lo) == InB(Shifted(idx, lo), k)
  {
  }

  /** Where A is read for `idx` of a slice. */
  lemma ShiftInA(shape: Shape, b: nat, start: int, stop: int, idx: Index, k: nat)
    requires |idx| == |shape| >= 3 && (shape[0] == 1 || shape[0] == b)
    requires Fits(shape[0], b, start, stop) && idx[0] < SliceLength(start, stop, b)
    ensures Shifted(InA(SlicedShape(shape, start, stop), idx, k), Clip(start, shape[0]))
         == InA(shape, Shifted(idx, Clip(start, b)), k)
  {
    var n, lo := |idx|, Clip(start, shape[0]);
    var here := Lead(SlicedShape(shape, start, stop), idx[..n - 2]);
    var there := Lead(shape, Shifted(idx, Clip(start, b))[..n - 2]);
    assert forall i :: 1 <= i < n - 2 ==> here[i] == there[i];
    assert here[0] + lo == there[0];
    assert Shifted(here, lo) == there;
  }

  lemma SliceElement(a: View, b: View, rank: nat, shape: Shape, start: int, stop: int, idx: Index)
    requires Multiplies(a.shape, b.shape, rank, shape) && (|shape| > 2 ==> Fits(a.shape[0], shape[0], start, stop))
    requires InRange(SlicedShape(shape, start, stop), idx)
    ensures Element(SlicedA(a, start, stop), Sliced(b, start, stop), rank, idx)
         == Element(a, b, rank, Shifted(idx, Clip(start, shape[0])))
  {
    var from := Shifted(idx, Clip(start, shape[0]));
    var a', b' := SlicedA(a, start, stop), Sliced(b, start, stop);
    forall k: nat | k < rank
      ensures Terms(a', b', idx)(k) == Terms(a, b, from)(k)
    {
      ShiftInB(idx, Clip(start, shape[0]), k);
      if |shape| == 2 {
        assert InA(a.shape, idx, k) == InA(a.shape, from, k);
      } else {
        ShiftInA(a.shape, shape[0], start, stop, idx, k);
      }
    }
    SameElement(a', b', idx, a, b, from, rank);
  }

  lemma SlicedFactors(p: Pair, op: Op)
    requires p.WellMade() && op.Slice?
    ensures ApplyPair(p, op) == Ok(Pair(Store(SlicedA(ViewOf(p.a), op.start, op.stop)),
                                        Store(Sliced(ViewOf(p.b), op.start, op.stop))))
  {
    StoreOfView(p.a);
  }

  lemma SliceCommutes(p: Pair, op: Op)
    requires p.Valid() && op.Slice? && SliceFits(p, op)
    ensures var r := ApplyPair(p, op);
            r.Ok? && r.value.Valid() && Apply(p.Dense(), op) == Ok(r.value.Dense())
  {
    var a, b, rank, shape, start, stop := ViewOf(p.a), ViewOf(p.b), p.Rank(), p.Shape(), op.start, op.stop;
    var v := Sliced(ViewOf(p.Dense()), start, stop);
    SliceMultiplies(a.shape, b.shape, rank, shape, start, stop);
    forall idx | InRange(v.shape, idx)
      ensures v.at(idx) == Element(SlicedA(a, start, stop), Sliced(b, start, stop), rank, idx)
    {
      SliceInRange(shape, start, stop, idx);
      DenseAt(p, Shifted(idx, Clip(start, shape[0])));
      SliceElement(a, b, rank, shape, start, stop, idx);
    }
    PairStandsFor(SlicedA(a, start, stop), Sliced(b, start, stop), rank, v);
    SlicedFactors(p, op);
  }

  /**
   The constructor accepts every slice of the factors; above two dimensions it is a pair for the slice of the
   product exactly when the slice fits.
   */
  lemma SliceIsRight(p: Pair, op: Op)
    requires p.Valid() && op.Slice?
    ensures var r := ApplyPair(p, op);
            && r.Ok?
            && (r.value.Valid() && Apply(p.Dense(), op) == Ok(r.value.Dense()) <==> SliceFits(p, op))
  {
    if SliceFits(p, op) {
      SliceCommutes(p, op);
    } else {
      var q := ApplyPair(p, op).value;
      assert q.a.shape[0] == 0 && q.b.shape[0] > 0;
    }
  }

  // ---------------------------------------------------------------- t[i]

  lemma SelectElement(a: View, b: View, rank: nat, shape: Shape, ia: nat, ib: nat, idx: Index)
    requires Multiplies(a.shape, b.shape, rank, shape) && |shape| > 2
    requires ib < shape[0] && (if a.shape[0] == 1 then ia == 0 else ia == ib)
    requires |idx| == |shape| - 1
    ensures Element(Selected(a, ia), Selected(b, ib), rank, idx) == Element(a, b, rank, [ib] + idx)
  {
    var n := |shape|;
    var a', b' := Selected(a, ia), Selected(b, ib);
    forall k: nat | k < rank
      ensures Terms(a', b', idx)(k) == Terms(a, b, [ib] + idx)(k)
    {
      assert [ib] + InB(idx, k) == InB([ib] + idx, k);
      assert [ia] + Lead(a'.shape, idx[..n - 3]) == Lead(a.shape, ([ib] + idx)[..n - 2]);
      assert [ia] + InA(a'.shape, idx, k) == InA(a.shape, [ib] + idx, k);
    }
    SameElement(a', b', idx, a, b, [ib] + idx, rank);
  }

  lemma SelectCommutes(p: Pair, op: Op)
    requires p.Valid() && op.Select? && ApplyPair(p, op).Ok?
    ensures ApplyPair(p, op).value.Valid() && Apply(p.Dense(), op) == Ok(ApplyPair(p, op).value.Dense())
  {
    var a, b, rank, shape := ViewOf(p.a), ViewOf(p.b), p.Rank(), p.Shape();
    var ia, ib := FromStart(op.i, a.shape[0]), FromStart(op.i, b.shape[0]);
    var v := Selected(ViewOf(p.Dense()), ib);
    forall idx | InRange(v.shape, idx)
      ensures v.at(idx) == Element(Selected(a, ia), Selected(b, ib), rank, idx)
    {
      DenseAt(p, [ib] + idx);
      SelectElement(a, b, rank, shape, ia, ib, idx);
    }
    PairStandsFor(Selected(a, ia), Selected(b, ib), rank, v);
  }

  // ---------------------------------------------------------------- permute, transpose

  lemma SourceInRange(shape: Shape, order: seq<int>, idx: Index)
    requires IsOrder(order, |shape|) && InRange(Reordered(shape, order), idx)
    ensures InRange(shape, Source(order, idx))
  {
    forall d | 0 <= d < |idx|
      ensures Source(order, idx)[d] < shape[d]
    {
      var i := Place(order, d);
      assert idx[i] < Reordered(shape, order)[i];
    }
  }

  /** The last axis stays where it is. */
  lemma LastPlace(order: seq<int>, n: nat, d: nat)
    requires IsOrder(order, n) && d < n && order[n - 1] == n - 1
    ensures Place(order, d) == n - 1 <==> d == n - 1
  {
    var i := Place(order, d);
    assert order[i] == d;
  }

  lemma SourceOfInB(order: seq<int>, idx: Index, k: nat)
    requires idx != [] && IsOrder(order, |idx|) && order[|idx| - 1] == |idx| - 1
    ensures Source(order, InB(idx, k)) == InB(Source(order, idx), k)
    ensures Source(order, idx)[|idx| - 1] == idx[|idx| - 1]
  {
    forall d: nat | d < |idx|
      ensures Source(order, InB(idx, k))[d] == InB(Source(order, idx), k)[d]
    {
      LastPlace(order, |idx|, d);
    }
    LastPlace(order, |idx|, |idx| - 1);
  }

  lemma LeadOfOnes(shape: Shape, n: nat, lead: Index, lead': Index)
    requires |lead| == |lead'| == n <= |shape| && AllOnes(shape[..n])
    ensures Lead(shape, lead) == Lead(shape, lead')
  {
    assert forall i :: 0 <= i < n ==> shape[i] == shape[..n][i];
  }

  /** The axes of B may be reordered under the last one where A has one matrix only. */
  lemma PermuteElement(a: View, b: View, rank: nat, shape: Shape, order: seq<int>, idx: Index)
    requires Multiplies(a.shape, b.shape, rank, shape) && AllOnes(a.shape[..|shape| - 2])
    requires IsOrder(order, |shape|) && order[|shape| - 1] == |shape| - 1 && |idx| == |shape|
    ensures Element(a, Permuted(b, order), rank, idx) == Element(a, b, rank, Source(order, idx))
  {
    var n, from := |shape|, Source(order, idx);
    forall k: nat | k < rank
      ensures Terms(a, Permuted(b, order), idx)(k) == Terms(a, b, from)(k)
    {
      SourceOfInB(order, idx, k);
      LeadOfOnes(a.shape, n - 2, idx[..n - 2], from[..n - 2]);
      assert InA(a.shape, idx, k) == InA(a.shape, from, k);
    }
    SameElement(a, Permuted(b, order), idx, a, b, from, rank);
  }

  lemma ReorderedMultiplies(a: Shape, b: Shape, rank: nat, shape: Shape, order: seq<int>)
    requires Multiplies(a, b, rank, shape) && AllOnes(a[..|a| - 2])
    requires IsOrder(order, |b|) && order[|b| - 1] == |b| - 1
    ensures Multiplies(a, Reordered(b, order), rank, Reordered(shape, order))
  {
    var n := |b|;
    assert forall i :: 0 <= i < n - 2 ==> a[i] == a[..n - 2][i];
    forall i | 0 <= i < n - 1
      ensures Reordered(shape, order)[i] == Reordered(b, order)[i]
    {
      assert order[i] != order[n - 1];
    }
  }

  lemma PermuteRowsCommutes(p: Pair, order: seq<int>)
    requires p.Valid() && AllOnes(p.a.shape[..|p.a.shape| - 2])
    requires IsOrder(order, |p.b.shape|) && order[|p.b.shape| - 1] == |p.b.shape| - 1
    ensures var q := Pair(p.a, Store(Permuted(ViewOf(p.b), order)));
            q.Valid() && q.Dense() == Store(Permuted(ViewOf(p.Dense()), order))
  {
    var a, b, rank, shape := ViewOf(p.a), ViewOf(p.b), p.Rank(), p.Shape();
    var v := Permuted(ViewOf(p.Dense()), order);
    ReorderedMultiplies(a.shape, b.shape, rank, shape, order);
    forall idx | InRange(v.shape, idx)
      ensures v.at(idx) == Element(a, Permuted(b, order), rank, idx)
    {
      SourceInRange(shape, order, idx);
      DenseAt(p, Source(order, idx));
      PermuteElement(a, b, rank, shape, order, idx);
    }
    PairStandsFor(a, Permuted(b, order), rank, v);
    StoreOfView(p.a);
  }

  /** The axes of a matrix exchanged. */
  const FLIP: seq<int> := [1, 0]

  lemma FlipIsOrder()
    ensures IsOrder(FLIP, 2) && Place(FLIP, 0) == 1 && Place(FLIP, 1) == 0
  {
    assert FLIP[0] == 1 && FLIP[1] == 0;
    assert 0 in FLIP && 1 in FLIP;
  }

  lemma SourceOfFlip(i: nat, j: nat)
    requires IsOrder(FLIP, 2)
    ensures Source(FLIP, [i, j]) == [j, i]
  {
    FlipIsOrder();
  }

  /** The transpose of a product is the product of the transposes, the other way round. */
  lemma TransposeElement(a: View, b: View, rank: nat, i: nat, j: nat)
    requires |a.shape| == |b.shape| == 2 && IsOrder(FLIP, 2)
    ensures Element(Permuted(b, FLIP), Permuted(a, FLIP), rank, [i, j]) == Element(a, b, rank, [j, i])
  {
    var a', b' := Permuted(b, FLIP), Permuted(a, FLIP);
    forall k: nat | k < rank
      ensures Terms(a', b', [i, j])(k) == Terms(a, b, [j, i])(k)
    {
      assert InB([i, j], k) == [i, k] && InA(a'.shape, [i, j], k) == [k, j];
      assert InB([j, i], k) == [j, k] && InA(a.shape, [j, i], k) == [k, i];
      SourceOfFlip(i, k);
      SourceOfFlip(k, j);
    }
    SameElement(a', b', [i, j], a, b, [j, i], rank);
  }

  lemma TransposeCommutes(p: Pair)
    requires p.Valid() && |p.b.shape| == 2 && IsOrder(FLIP, 2)
    ensures var q := Pair(Store(Permuted(ViewOf(p.b), FLIP)), Store(Permuted(ViewOf(p.a), FLIP)));
            q.Valid() && q.Dense() == Store(Permuted(ViewOf(p.Dense()), FLIP))
  {
    var a, b, rank, shape := ViewOf(p.a), ViewOf(p.b), p.Rank(), p.Shape();
    var v := Permuted(ViewOf(p.Dense()), FLIP);
    forall idx | InRange(v.shape, idx)
      ensures v.at(idx) == Element(Permuted(b, FLIP), Permuted(a, FLIP), rank, idx)
    {
      assert idx == [idx[0], idx[1]];
      SourceOfFlip(idx[0], idx[1]);
      SourceInRange(shape, FLIP, idx);
      DenseAt(p, [idx[1], idx[0]]);
      TransposeElement(a, b, rank, idx[0], idx[1]);
    }
    PairStandsFor(Permuted(b, FLIP), Permuted(a, FLIP), rank, v);
  }

  /** Counting the axes from the end changes nothing for the tensor library. */
  lemma FromEndAxes(dims: seq<int>, n: nat)
    requires n > 0 && IsOrder(Axes(dims, n), n)
    ensures Axes(FromEnd(dims, n), n) == Axes(dims, n) && |dims| == n
    ensures forall i :: 0 <= i < n ==> FromEnd(dims, n)[i] == Axes(dims, n)[i] - n
  {
    forall i | 0 <= i < n
      ensures Axes(FromEnd(dims, n), n)[i] == Axes(dims, n)[i]
      ensures FromEnd(dims, n)[i] == Axes(dims, n)[i] - n
    {
      assert 0 <= Axes(dims, n)[i] < n;
    }
  }

  /** The factors permute returns, for any order of the axes that a tensor takes. */
  lemma PermutedFactors(p: Pair, dims: seq<int>)
    requires p.WellMade() && PermutePair(p, dims).Ok? && IsOrder(Axes(dims, |p.b.shape|), |p.b.shape|)
    ensures var n, order := |p.b.shape|, Axes(dims, |p.b.shape|);
            if order[n - 1] == n - 1 then
              AllOnes(p.a.shape[..n - 2]) &&
              PermutePair(p, dims).value == Pair(p.a, Store(Permuted(ViewOf(p.b), order)))
            else
              n == 2 && order == FLIP &&
              PermutePair(p, dims).value
              == Pair(Store(Permuted(ViewOf(p.b), order)), Store(Permuted(ViewOf(p.a), order)))
  {
    var n, order := |p.b.shape|, Axes(dims, |p.b.shape|);
    FromEndAxes(dims, n);
    assert 0 <= order[n - 1] < n && 0 <= order[0] < n;
  }

  /** What permute makes of a pair, for any order of the axes that a tensor takes. */
  lemma PermuteCommutes(p: Pair, dims: seq<int>)
    requires p.Valid() && PermutePair(p, dims).Ok? && Apply(p.Dense(), Permute(dims)).Ok?
    ensures PermutePair(p, dims).value.Valid()
    ensures Apply(p.Dense(), Permute(dims)) == Ok(PermutePair(p, dims).value.Dense())
  {
    var n := |p.b.shape|;
    var order := Axes(dims, n);
    PermutedFactors(p, dims);
    if order[n - 1] == n - 1 {
      PermuteRowsCommutes(p, order);
    } else {
      TransposeCommutes(p);
    }
  }

  /** All axes exist. */
  predicate AxesExist(dims: seq<int>, n: nat) {
    forall i :: 0 <= i < |dims| ==> 0 <= dims[i] + n && dims[i] < n
  }

  /** The order in which permute reorders B, or both factors. */
  lemma PermutedOrder(p: Pair, dims: seq<int>)
    requires p.WellMade() && PermutePair(p, dims).Ok?
    ensures |dims| == |p.b.shape| && IsOrder(Axes(FromEnd(dims, |p.b.shape|), |p.b.shape|), |p.b.shape|)
  {
  }

  /** Of what permute accepts, a tensor takes exactly the orders of existing axes. */
  lemma PermuteAccepts(p: Pair, dims: seq<int>)
    requires p.Valid() && PermutePair(p, dims).Ok?
    ensures Apply(p.Dense(), Permute(dims)).Ok? <==> AxesExist(dims, |p.b.shape|)
  {
    var n := |p.b.shape|;
    PermutedOrder(p, dims);
    if AxesExist(dims, n) {
      assert Axes(dims, n) == Axes(FromEnd(dims, n), n);
    } else {
      var i :| 0 <= i < n && !(0 <= dims[i] + n && dims[i] < n);
      assert Axes(dims, n)[i] == FromStart(dims[i], n);
    }
  }

  /** An order that permute accepts of every matrix and no tensor takes: axes 2 and 1. */
  lemma AxesTooLarge(p: Pair)
    requires p.Valid() && |p.b.shape| == 2
    ensures PermutePair(p, [2, 1]).Ok? && Apply(p.Dense(), Permute([2, 1])).Err?
  {
    var fromEnd := FromEnd([2, 1], 2);
    assert fromEnd == [0, -1];
    assert Axes(fromEnd, 2) == [0, 1];
    IdentityIsOrder();
    assert Apply(p.b, Permute(fromEnd)) == Ok(Store(Permuted(ViewOf(p.b), [0, 1])));
    assert !AxesExist([2, 1], 2) by {
      assert [2, 1][0] == 2;
    }
    PermuteAccepts(p, [2, 1]);
  }

  lemma IdentityIsOrder()
    ensures IsOrder([0, 1], 2)
  {
    assert [0, 1][0] == 0 && [0, 1][1] == 1;
    assert 0 in [0, 1] && 1 in [0, 1];
  }

  // ---------------------------------------------------------------- what the pair refuses, and what it stands for

  /** An order of the axes under the last one. */
  lemma LastStays(p: Pair, dims: seq<int>)
    requires p.WellMade() && IsOrder(Axes(dims, |p.b.shape|), |p.b.shape|)
    requires Axes(dims, |p.b.shape|)[|p.b.shape| - 1] == |p.b.shape| - 1
    ensures if AllOnes(p.a.shape[..|p.b.shape| - 2]) then PermutePair(p, dims).Ok?
            else PermutePair(p, dims) == Err(AssertionFailed)
  {
    var n := |p.b.shape|;
    FromEndAxes(dims, n);
    PermuteIs(p.b, FromEnd(dims, n), Axes(dims, n));
    LastStaysLast(p.b.shape, Axes(dims, n));
  }

  lemma LastStaysLast(shape: Shape, order: seq<int>)
    requires shape != [] && IsOrder(order, |shape|) && order[|shape| - 1] == |shape| - 1
    ensures Reordered(shape, order)[|shape| - 1] == shape[|shape| - 1]
  {
  }

  /** An order that moves the last axis. */
  lemma LastMoves(p: Pair, dims: seq<int>)
    requires p.WellMade() && IsOrder(Axes(dims, |p.b.shape|), |p.b.shape|)
    requires Axes(dims, |p.b.shape|)[|p.b.shape| - 1] != |p.b.shape| - 1
    ensures if |p.b.shape| == 2 then PermutePair(p, dims).Ok? else PermutePair(p, dims) == Err(Unsupported)
  {
    var n, order := |p.b.shape|, Axes(dims, |p.b.shape|);
    FromEndAxes(dims, n);
    assert 0 <= order[n - 1] < n;
    if n == 2 {
      LastMovesOfTwo(p, dims, order);
    }
  }

  lemma LastMovesOfTwo(p: Pair, dims: seq<int>, order: seq<int>)
    requires p.WellMade() && |p.b.shape| == |order| == |dims| == 2 && IsOrder(order, 2) && order[1] != 1
    requires Axes(FromEnd(dims, 2), 2) == order && forall i :: 0 <= i < 2 ==> FromEnd(dims, 2)[i] == order[i] - 2
    ensures PermutePair(p, dims).Ok?
  {
    assert order[0] != order[1] && 0 <= order[0] < 2;
    PermuteIs(p.b, FromEnd(dims, 2), order);
    PermuteIs(p.a, FromEnd(dims, 2), order);
  }

  /** Of the orders a tensor takes, permute refuses those that move the last axis, but for the transpose of a matrix. */
  lemma PermuteRefuses(p: Pair, dims: seq<int>)
    requires p.Valid() && Apply(p.Dense(), Permute(dims)).Ok?
    ensures var n := |p.b.shape|;
            && |dims| == n
            && if dims[n - 1] == n - 1 || dims[n - 1] == -1 then
                 (if AllOnes(p.a.shape[..n - 2]) then PermutePair(p, dims).Ok?
                  else PermutePair(p, dims) == Err(AssertionFailed))
               else
                 (if n == 2 then PermutePair(p, dims).Ok? else PermutePair(p, dims) == Err(Unsupported))
  {
    var n := |p.b.shape|;
    assert Axes(dims, n)[n - 1] == FromStart(dims[n - 1], n) && 0 <= Axes(dims, n)[n - 1] < n;
    if Axes(dims, n)[n - 1] == n - 1 {
      LastStays(p, dims);
    } else {
      LastMoves(p, dims);
    }
  }

  lemma PermuteIs(t: Tensor, dims: seq<int>, order: seq<int>)
    requires t.Valid() && order == Axes(dims, |t.shape|) && IsOrder(order, |t.shape|)
    ensures Apply(t, Permute(dims)) == Ok(Store(Permuted(ViewOf(t), order)))
  {
  }

  /** t[i] is taken above two dimensions, where both factors have the position. */
  lemma SelectAccepts(p: Pair, i: int)
    requires p.WellMade()
    ensures ApplyPair(p, Select(i)).Ok? <==>
            && |p.b.shape| > 2
            && 0 <= i + p.a.shape[0] && i < p.a.shape[0] && 0 <= i + p.b.shape[0] && i < p.b.shape[0]
  {
    if |p.b.shape| > 2 {
      var n := |p.b.shape|;
      assert Apply(p.a, Select(i)).Ok? ==> Apply(p.a, Select(i)).value.shape == p.a.shape[1..];
      assert Apply(p.b, Select(i)).Ok? ==> Apply(p.b, Select(i)).value.shape == p.b.shape[1..];
      assert p.a.shape[1..][n - 3] == p.a.shape[n - 2] && p.b.shape[1..][n - 2] == p.b.shape[n - 1];
    }
  }

  /** The element of B and A at row `i` and column `j` of one of their matrices, as the sum that defines it. */
  ghost function RowTimesColumn(p: Pair, lead: Index, alead: Index, i: nat, j: nat): int -> real {
    k => if k < 0 then 0.0 else p.b.At(lead + [i, k]) * p.a.At(alead + [k, j])
  }

  lemma TermIndex(shape: Shape, lead: Index, alead: Index, i: nat, j: nat, k: nat)
    requires |lead| == |alead| == |shape| - 2
    requires forall q :: 0 <= q < |lead| ==> alead[q] == if shape[q] == 1 then 0 else lead[q]
    ensures InB(lead + [i, j], k) == lead + [i, k] && InA(shape, lead + [i, j], k) == alead + [k, j]
  {
    var idx := lead + [i, j];
    assert idx[..|lead|] == lead && idx[..|lead| + 1] == lead + [i];
    assert Lead(shape, lead) == alead;
  }

  lemma TermIsProduct(p: Pair, lead: Index, alead: Index, i: nat, j: nat, k: nat)
    requires p.Valid() && |lead| == |alead| == |p.a.shape| - 2
    requires forall q :: 0 <= q < |lead| ==> alead[q] == if p.a.shape[q] == 1 then 0 else lead[q]
    ensures Terms(ViewOf(p.a), ViewOf(p.b), lead + [i, j])(k) == RowTimesColumn(p, lead, alead, i, j)(k)
  {
    TermIndex(p.a.shape, lead, alead, i, j, k);
  }

  lemma ElementIsSum(p: Pair, lead: Index, alead: Index, i: nat, j: nat)
    requires p.Valid() && |lead| == |alead| == |p.a.shape| - 2
    requires forall q :: 0 <= q < |lead| ==> alead[q] == if p.a.shape[q] == 1 then 0 else lead[q]
    ensures Element(ViewOf(p.a), ViewOf(p.b), p.Rank(), lead + [i, j])
         == Sum(RowTimesColumn(p, lead, alead, i, j), 0, p.Rank())
  {
    var f, g := Terms(ViewOf(p.a), ViewOf(p.b), lead + [i, j]), RowTimesColumn(p, lead, alead, i, j);
    forall k: nat | k < p.Rank()
      ensures f(k) == g(k)
    {
      TermIsProduct(p, lead, alead, i, j, k);
    }
    SumSame(f, g, 0, 0, p.Rank());
  }

  /** What a pair stands for: B times A, matrix by matrix, A's being shared along axes where it has length 1. */
  lemma DenseMeaning(p: Pair, lead: Index, alead: Index, i: nat, j: nat)
    requires p.Valid() && InRange(p.Shape(), lead + [i, j])
    requires |lead| == |alead| == |p.a.shape| - 2
    requires forall q :: 0 <= q < |lead| ==> alead[q] == if p.a.shape[q] == 1 then 0 else lead[q]
    ensures p.Dense().At(lead + [i, j]) == Sum(RowTimesColumn(p, lead, alead, i, j), 0, p.Rank())
  {
    DenseAt(p, lead + [i, j]);
    ElementIsSum(p, lead, alead, i, j);
  }
}
