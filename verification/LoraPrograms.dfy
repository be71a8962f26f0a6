/** Reshaping a pair of factors, whole programs of tensor operations on it, and the head permutation among them. */
module LoraPrograms {
  import opened RealSums
  import opened Tensors
  import opened Lora

  // ---------------------------------------------------------------- reshape

  /** The factors as stored: A holds one matrix of `rank` rows and `cols` columns. */
  function FlatTerm(a: seq<real>, b: seq<real>, rank: nat, cols: nat, i: nat, k: int): real {
    if cols > 0 && 0 <= k && i / cols * rank + k < |b| && k * cols + i % cols < |a| then
      b[i / cols * rank + k] * a[k * cols + i % cols]
    else 0.0
  }

  ghost function FlatTerms(a: seq<real>, b: seq<real>, rank: nat, cols: nat, i: nat): int -> real {
    k => FlatTerm(a, b, rank, cols, i, k)
  }

  lemma {:induction false} OnesVolume(shape: Shape)
    requires AllOnes(shape)
    ensures Volume(shape) == 1
  {
    if shape != [] {
      OnesVolume(shape[..|shape| - 1]);
    }
  }

  lemma {:induction false} VolumeOne(shape: Shape)
    requires Volume(shape) == 1
    ensures AllOnes(shape)
  {
    if shape != [] {
      var n := |shape| - 1;
      FactorsOfOne(Volume(shape[..n]), shape[n]);
      VolumeOne(shape[..n]);
      assert forall i :: 0 <= i < n ==> shape[i] == shape[..n][i];
    }
  }

  lemma FactorsOfOne(x: nat, y: nat)
    requires x * y == 1
    ensures x == 1 && y == 1
  {
    if x > 1 {
      TimesGrows(2, x, y);
    }
  }

  lemma {:induction false} ZerosFirst(shape: Shape, idx: Index)
    requires |idx| == |shape| && forall i :: 0 <= i < |idx| ==> idx[i] == 0
    ensures Ravel(shape, idx) == 0
  {
    if shape != [] {
      ZerosFirst(shape[..|shape| - 1], idx[..|shape| - 1]);
    }
  }

  /** Where the last two axes of an index lead. */
  lemma RavelLastTwo(shape: Shape, lead: Index, r: nat, c: nat)
    requires |lead| + 2 == |shape|
    ensures Ravel(shape, lead + [r, c])
         == (Ravel(shape[..|lead|], lead) * shape[|lead|] + r) * shape[|lead| + 1] + c
  {
    SplitLastTwo(shape, |lead|);
    RavelTwoMore(shape[..|lead|], shape[|lead|], shape[|lead| + 1], lead, r, c);
    assert lead + [r] + [c] == lead + [r, c];
  }

  lemma SplitLastTwo(shape: Shape, k: nat)
    requires k + 2 == |shape|
    ensures shape == shape[..k] + [shape[k]] + [shape[k + 1]]
  {
  }

  lemma RavelTwoMore(front: Shape, m: nat, n: nat, lead: Index, r: nat, c: nat)
    requires |lead| == |front|
    ensures Ravel(front + [m] + [n], lead + [r] + [c]) == (Ravel(front, lead) * m + r) * n + c
  {
    RavelOneMore(front, m, lead, r);
    RavelOneMore(front + [m], n, lead + [r], c);
  }

  lemma RavelOneMore(front: Shape, n: nat, lead: Index, c: nat)
    requires |lead| == |front|
    ensures Ravel(front + [n], lead + [c]) == Ravel(front, lead) * n + c
  {
    assert (front + [n])[..|front|] == front && (lead + [c])[..|lead|] == lead;
  }

  lemma RavelLast(shape: Shape, lead: Index, c: nat)
    requires |lead| + 1 == |shape|
    ensures Ravel(shape, lead + [c]) == Ravel(shape[..|lead|], lead) * shape[|lead|] + c
  {
    RavelOneMore(shape[..|lead|], shape[|lead|], lead, c);
    assert shape[..|lead|] + [shape[|lead|]] == shape;
  }

  /** A is one matrix, whatever its number of axes. */
  predicate OneMatrix(p: Pair)
    requires p.WellMade()
  {
    |p.a.data| == p.Rank() * p.Columns()
  }

  lemma VolumeLastTwo(shape: Shape, lead: Shape, r: nat, c: nat)
    requires shape == lead + [r, c]
    ensures Volume(shape) == Volume(lead) * (r * c)
  {
    assert shape[..|shape| - 1] == lead + [r] && (lead + [r])[..|lead|] == lead;
    MulAssoc(Volume(lead), r, c);
  }

  lemma MulAssoc(x: nat, y: nat, z: nat)
    ensures x * y * z == x * (y * z)
  {
  }

  lemma OneMatrixIsOnes(p: Pair)
    requires p.WellMade() && p.Rank() * p.Columns() > 0
    ensures OneMatrix(p) <==> AllOnes(p.a.shape[..|p.a.shape| - 2])
  {
    var lead, each := p.a.shape[..|p.a.shape| - 2], p.Rank() * p.Columns();
    VolumeLastTwo(p.a.shape, lead, p.Rank(), p.Columns());
    if Volume(lead) * each == each {
      OnlyOne(Volume(lead), each);
      VolumeOne(lead);
    }
    if AllOnes(lead) {
      OnesVolume(lead);
    }
  }

  lemma OnlyOne(x: nat, y: nat)
    requires x * y == y > 0
    ensures x == 1
  {
    TimesGrows(2, x, y);
  }

  /** What the pair stands for, read from its storage. */
  lemma FlatElement(p: Pair, i: nat)
    requires p.Valid() && OneMatrix(p) && i < |p.Dense().data|
    ensures p.Dense().data[i] == Sum(FlatTerms(p.a.data, p.b.data, p.Rank(), p.Columns(), i), 0, p.Rank())
  {
    var a, b, rank, cols := ViewOf(p.a), ViewOf(p.b), p.Rank(), p.Columns();
    var shape := p.Shape();
    var n := |shape|;
    assert shape[..n - 1] == p.b.shape[..n - 1];
    QuotientInRange(i, Volume(shape[..n - 1]), cols);
    var idx := Unravel(shape, i);
    forall k: nat | k < rank
      ensures Terms(a, b, idx)(k) == FlatTerms(p.a.data, p.b.data, rank, cols, i)(k)
    {
      FlatTermIs(p, i, k);
    }
    SumSame(Terms(a, b, idx), FlatTerms(p.a.data, p.b.data, rank, cols, i), 0, 0, rank);
  }

  lemma FlatTermIs(p: Pair, i: nat, k: nat)
    requires p.Valid() && OneMatrix(p) && i < Volume(p.Shape()) && k < p.Rank()
    ensures Terms(ViewOf(p.a), ViewOf(p.b), Unravel(p.Shape(), i))(k)
         == FlatTerm(p.a.data, p.b.data, p.Rank(), p.Columns(), i, k)
  {
    var shape, rank, cols := p.Shape(), p.Rank(), p.Columns();
    var idx := Unravel(shape, i);
    UnravelRavel(shape, i);
    TermIndices(p.a.shape, p.b.shape, rank, shape, idx, k);
    FlatB(p, i, k);
    FlatA(p, i, k);
    RavelUnravel(p.b.shape, InB(idx, k));
    RavelUnravel(p.a.shape, InA(p.a.shape, idx, k));
  }

  lemma FlatB(p: Pair, i: nat, k: nat)
    requires p.Valid() && i < Volume(p.Shape())
    ensures p.Columns() > 0
    ensures Ravel(p.b.shape, InB(Unravel(p.Shape(), i), k)) == i / p.Columns() * p.Rank() + k
  {
    var shape, cols := p.Shape(), p.Columns();
    var n, idx := |shape|, Unravel(shape, i);
    assert shape[..n - 1] == p.b.shape[..n - 1];
    QuotientInRange(i, Volume(shape[..n - 1]), cols);
    assert idx[..n - 1] == Unravel(shape[..n - 1], i / cols);
    UnravelRavel(shape[..n - 1], i / cols);
    RavelLast(p.b.shape, idx[..n - 1], k);
  }

  lemma FlatA(p: Pair, i: nat, k: nat)
    requires p.Valid() && OneMatrix(p) && i < Volume(p.Shape()) && k < p.Rank()
    ensures p.Columns() > 0
    ensures Ravel(p.a.shape, InA(p.a.shape, Unravel(p.Shape(), i), k)) == k * p.Columns() + i % p.Columns()
  {
    var shape, cols := p.Shape(), p.Columns();
    var n, idx := |shape|, Unravel(shape, i);
    QuotientInRange(i, Volume(shape[..n - 1]), cols);
    assert idx[n - 1] == i % cols;
    OneMatrixIsOnes(p);
    var lead := Lead(p.a.shape, idx[..n - 2]);
    assert forall j :: 0 <= j < n - 2 ==> lead[j] == 0 by {
      assert forall j :: 0 <= j < n - 2 ==> p.a.shape[j] == p.a.shape[..n - 2][j];
    }
    ZerosFirst(p.a.shape[..n - 2], lead);
    RavelLastTwo(p.a.shape, lead, k, i % cols);
  }

  /** The factors of a reshaped pair, once the new shape is known. */
  function ReshapedFactors(p: Pair, shape: Shape): Pair
    requires p.WellMade() && |shape| >= 2
  {
    var n := |shape|;
    Pair(Tensor(Ones(n - 2) + [p.Rank(), p.Columns()], p.a.data), Tensor(shape[..n - 1] + [p.Rank()], p.b.data))
  }

  /** Both factors have exactly the elements the new shape asks for. */
  predicate Reshapes(p: Pair, shape: Shape)
    requires p.WellMade()
  {
    && |shape| >= 2 && shape[|shape| - 1] == p.Columns()
    && OneMatrix(p)
    && Volume(shape[..|shape| - 1] + [p.Rank()]) == |p.b.data|
  }

  lemma MatrixVolume(n: nat, r: nat, c: nat)
    ensures Volume(Ones(n) + [r, c]) == r * c
  {
    OnesVolume(Ones(n));
    VolumeLastTwo(Ones(n) + [r, c], Ones(n), r, c);
  }

  lemma ReshapeFactors(p: Pair, shape: Shape)
    requires p.Valid() && Reshapes(p, shape)
    ensures var q := ReshapedFactors(p, shape);
            q.Valid() && OneMatrix(q) && q.Rank() == p.Rank() && q.Columns() == p.Columns() && q.Shape() == shape
  {
    MatrixVolume(|shape| - 2, p.Rank(), p.Columns());
  }

  /** When reshape accepts a shape that the tensor itself can take, the pair stands for the reshaped tensor. */
  lemma ReshapedStandsFor(p: Pair, shape: Shape)
    requires p.Valid() && Reshapes(p, shape) && Volume(shape) == |p.Dense().data|
    ensures var q := ReshapedFactors(p, shape); q.Valid() && q.Dense() == Tensor(shape, p.Dense().data)
  {
    var q := ReshapedFactors(p, shape);
    ReshapeFactors(p, shape);
    forall i: nat | i < |p.Dense().data|
      ensures q.Dense().data[i] == p.Dense().data[i]
    {
      FlatElement(p, i);
      FlatElement(q, i);
    }
    assert q.Dense().data == p.Dense().data;
  }

  lemma ReshapeIs(p: Pair, shape: seq<int>, expanded: seq<int>)
    requires p.WellMade() && |shape| >= 2 && Expand(shape, Volume(p.Shape())) == Ok(expanded) && Proper(expanded)
    ensures ReshapePair(p, shape).Ok? <==> Reshapes(p, expanded)
    ensures Reshapes(p, expanded) ==> ReshapePair(p, shape) == Ok(ReshapedFactors(p, expanded))
  {
    var n := |expanded|;
    MatrixVolume(n - 2, p.Rank(), p.Columns());
    assert Proper(Ones(n - 2) + [p.Rank(), p.Columns()]) && Proper(expanded[..n - 1] + [p.Rank()]);
  }

  lemma ReshapeCommutes(p: Pair, shape: seq<int>)
    requires p.Valid() && ReshapePair(p, shape).Ok? && Apply(p.Dense(), Reshape(shape)).Ok?
    ensures ReshapePair(p, shape).value.Valid()
    ensures Apply(p.Dense(), Reshape(shape)) == Ok(ReshapePair(p, shape).value.Dense())
  {
    var expanded := Expand(shape, Volume(p.Shape())).value;
    ReshapeIs(p, shape, expanded);
    ReshapedStandsFor(p, expanded);
  }

  /** Reshape accepts any split of the rows, as long as A is one matrix. */
  lemma ReshapeAccepts(p: Pair, shape: Shape)
    requires p.Valid() && OneMatrix(p) && |shape| >= 2 && shape[|shape| - 1] == p.Columns()
    requires Volume(shape[..|shape| - 1]) == Volume(p.b.shape[..|p.b.shape| - 1])
    ensures ReshapePair(p, shape) == Ok(ReshapedFactors(p, shape))
    ensures ReshapedFactors(p, shape).Valid()
    ensures Apply(p.Dense(), Reshape(shape)) == Ok(ReshapedFactors(p, shape).Dense())
  {
    var n := |shape|;
    assert (shape[..n - 1] + [p.Rank()])[..n - 1] == shape[..n - 1];
    assert p.Shape()[..|p.b.shape| - 1] == p.b.shape[..|p.b.shape| - 1];
    assert Expand(shape, Volume(p.Shape())) == Ok(shape);
    ReshapeIs(p, shape, shape);
    ReshapedStandsFor(p, shape);
  }

  lemma SameFactor(x: nat, y: nat, z: nat)
    requires x * z == y * z && z > 0
    ensures x == y
  {
    TimesGrows(x + 1, y, z);
    TimesGrows(y + 1, x, z);
  }

  lemma VolumeOneMore(front: Shape, n: nat)
    ensures Volume(front + [n]) == Volume(front) * n
  {
    assert (front + [n])[..|front|] == front;
  }

  /** Whatever reshape accepts of a pair of rank 1 or more, the tensor takes. */
  lemma ReshapeIsTaken(p: Pair, shape: seq<int>)
    requires p.Valid() && p.Rank() > 0 && ReshapePair(p, shape).Ok?
    ensures Apply(p.Dense(), Reshape(shape)).Ok?
  {
    var expanded := Expand(shape, Volume(p.Shape())).value;
    var n, rows := |expanded|, p.b.shape[..|p.b.shape| - 1];
    var front := expanded[..n - 1];
    ReshapedRows(p, expanded);
    assert rows + [p.Rank()] == p.b.shape && front + [p.Columns()] == expanded;
    SameRows(front, rows, p.Rank(), p.Columns());
    ReshapeTaken(Tensor(p.Shape(), p.Dense().data), expanded);
  }

  lemma SameRows(front: Shape, rows: Shape, rank: nat, cols: nat)
    requires rank > 0 && Volume(front + [rank]) == Volume(rows + [rank])
    ensures Volume(front + [cols]) == Volume(rows + [cols])
  {
    VolumeOneMore(front, rank);
    VolumeOneMore(rows, rank);
    SameFactor(Volume(front), Volume(rows), rank);
    VolumeOneMore(front, cols);
    VolumeOneMore(rows, cols);
  }

  /** What reshape has asked of the rows. */
  lemma ReshapedRows(p: Pair, expanded: seq<int>)
    requires p.WellMade() && |expanded| >= 2 && expanded[|expanded| - 1] == p.Columns()
    requires Reshaped(p.b, expanded[..|expanded| - 1] + [p.Rank()]).Ok?
    ensures Proper(expanded) && Volume(expanded[..|expanded| - 1] + [p.Rank()]) == |p.b.data|
  {
    var b := expanded[..|expanded| - 1] + [p.Rank()];
    forall i | 0 <= i < |expanded|
      ensures expanded[i] >= 0
    {
      if i < |expanded| - 1 {
        assert b[i] == expanded[i];
      }
    }
  }

  /** A pair of rank 0 is reshaped to any number of rows; the tensor takes only its own number of elements. */
  lemma RankZeroReshapes(p: Pair, shape: Shape)
    requires p.Valid() && p.Rank() == 0 && |shape| >= 2 && shape[|shape| - 1] == p.Columns()
    ensures ReshapePair(p, shape).Ok?
    ensures Apply(p.Dense(), Reshape(shape)).Ok? <==> Volume(shape) == Volume(p.Shape())
  {
    NoData(p);
    VolumeOneMore(shape[..|shape| - 1], 0);
    ShapeIsExpanded(shape, Volume(p.Shape()));
    ReshapeIs(p, shape, shape);
    ReshapeTaken(p.Dense(), shape);
  }

  lemma ShapeIsExpanded(shape: Shape, size: nat)
    ensures Expand(shape, size) == Ok(shape) && Proper(shape)
  {
    assert -1 !in shape;
  }

  lemma ReshapeTaken(t: Tensor, shape: Shape)
    requires t.Valid()
    ensures Apply(t, Reshape(shape)).Ok? <==> Volume(shape) == |t.data|
  {
    ShapeIsExpanded(shape, |t.data|);
  }

  lemma NoData(p: Pair)
    requires p.WellMade() && p.Rank() == 0
    ensures OneMatrix(p) && |p.b.data| == 0
  {
    var n := |p.b.shape|;
    VolumeOneMore(p.b.shape[..n - 1], 0);
    assert p.b.shape[..n - 1] + [0] == p.b.shape;
    VolumeLastTwo(p.a.shape, p.a.shape[..n - 2], 0, p.Columns());
  }

  // ---------------------------------------------------------------- programs

  lemma StepCommutes(p: Pair, op: Op)
    requires p.Valid() && SliceFits(p, op) && ApplyPair(p, op).Ok? && Apply(p.Dense(), op).Ok?
    ensures ApplyPair(p, op).value.Valid()
    ensures Apply(p.Dense(), op) == Ok(ApplyPair(p, op).value.Dense())
  {
    match op
    case Select(_) => SelectCommutes(p, op);
    case Slice(_, _) => SliceCommutes(p, op);
    case Reshape(shape) => ReshapeCommutes(p, shape);
    case Permute(dims) => PermuteCommutes(p, dims);
    case Swap(dim0, dim1) => SwapCommutes(p, dim0, dim1);
  }

  lemma SwapCommutes(p: Pair, dim0: int, dim1: int)
    requires p.Valid() && ApplyPair(p, Swap(dim0, dim1)).Ok?
    ensures ApplyPair(p, Swap(dim0, dim1)).value.Valid()
    ensures Apply(p.Dense(), Swap(dim0, dim1)) == Ok(ApplyPair(p, Swap(dim0, dim1)).value.Dense())
  {
    var n := |p.b.shape|;
    var order := SwappedAxes(dim0, dim1, n).value;
    SwappedIsOrder(dim0, dim1, n);
    assert Axes(order, n) == order;
    PermuteCommutes(p, order);
  }

  /** Exchanging two axes of a pair is refused for what permute refuses: to move the last axis above two dimensions. */
  lemma SwapAccepts(p: Pair, dim0: int, dim1: int)
    requires p.Valid()
    ensures var n := |p.b.shape|;
            var exist := 0 <= dim0 + n && dim0 < n && 0 <= dim1 + n && dim1 < n;
            var i, j := if dim0 < 0 then dim0 + n else dim0, if dim1 < 0 then dim1 + n else dim1;
            ApplyPair(p, Swap(dim0, dim1)).Ok? <==>
            exist && if i == j || (i < n - 1 && j < n - 1) then AllOnes(p.a.shape[..n - 2]) else n == 2
  {
    var n := |p.b.shape|;
    var r := SwappedAxes(dim0, dim1, n);
    if r.Ok? {
      SwappedIsOrder(dim0, dim1, n);
      assert Axes(r.value, n) == r.value;
      PermuteRefuses(p, r.value);
    }
  }

  /** Every slice of the program fits the pair it is taken of. */
  predicate AllFit(p: Pair, ops: seq<Op>)
    requires p.WellMade()
    decreases |ops|
  {
    ops == [] ||
    (SliceFits(p, ops[0]) && (ApplyPair(p, ops[0]).Ok? ==> AllFit(ApplyPair(p, ops[0]).value, ops[1..])))
  }

  /** Whatever a program of tensor operations computes of the product, it computes the factors of. */
  lemma {:induction false} ProgramCommutes(p: Pair, ops: seq<Op>)
    requires p.Valid() && AllFit(p, ops) && RunPair(p, ops).Ok? && Run(p.Dense(), ops).Ok?
    ensures RunPair(p, ops).value.Valid()
    ensures Run(p.Dense(), ops) == Ok(RunPair(p, ops).value.Dense())
    decreases |ops|
  {
    if ops != [] {
      StepCommutes(p, ops[0]);
      ProgramCommutes(ApplyPair(p, ops[0]).value, ops[1..]);
    }
  }

  /** No operation changes the rank. */
  lemma RankStays(p: Pair, op: Op)
    requires p.WellMade() && ApplyPair(p, op).Ok?
    ensures ApplyPair(p, op).value.Rank() == p.Rank()
  {
    match op
    case Select(_) =>
    case Slice(_, _) =>
    case Reshape(_) =>
    case Permute(dims) => PermuteKeepsRank(p, dims);
    case Swap(dim0, dim1) => PermuteKeepsRank(p, SwappedAxes(dim0, dim1, |p.b.shape|).value);
  }

  lemma PermuteKeepsRank(p: Pair, dims: seq<int>)
    requires p.WellMade() && PermutePair(p, dims).Ok?
    ensures PermutePair(p, dims).value.Rank() == p.Rank()
  {
    var n := |p.b.shape|;
    var order := Axes(FromEnd(dims, n), n);
    PermutedOrder(p, dims);
    assert order[n - 1] == FromStart(FromEnd(dims, n)[n - 1], n);
    assert n == 2 ==> order[0] == FromStart(FromEnd(dims, n)[0], n);
  }

  /** The axes of an explicit permutation exist. */
  predicate AxesFit(p: Pair, op: Op) {
    op.Permute? ==> AxesExist(op.dims, |p.b.shape|)
  }

  predicate AllAxesFit(p: Pair, ops: seq<Op>)
    requires p.WellMade()
    decreases |ops|
  {
    ops == [] ||
    (AxesFit(p, ops[0]) && (ApplyPair(p, ops[0]).Ok? ==> AllAxesFit(ApplyPair(p, ops[0]).value, ops[1..])))
  }

  lemma StepIsTaken(p: Pair, op: Op)
    requires p.Valid() && p.Rank() > 0 && AxesFit(p, op) && ApplyPair(p, op).Ok?
    ensures Apply(p.Dense(), op).Ok?
  {
    match op
    case Select(_) => SelectCommutes(p, op);
    case Slice(_, _) =>
    case Reshape(shape) => ReshapeIsTaken(p, shape);
    case Permute(dims) => PermuteAccepts(p, dims);
    case Swap(dim0, dim1) => SwapCommutes(p, dim0, dim1);
  }

  /** Whatever program a pair of rank 1 or more accepts, with existing axes, the product takes. */
  lemma {:induction false} ProgramIsTaken(p: Pair, ops: seq<Op>)
    requires p.Valid() && p.Rank() > 0 && AllFit(p, ops) && AllAxesFit(p, ops) && RunPair(p, ops).Ok?
    ensures Run(p.Dense(), ops).Ok?
    decreases |ops|
  {
    if ops != [] {
      StepIsTaken(p, ops[0]);
      StepCommutes(p, ops[0]);
      RankStays(p, ops[0]);
      ProgramIsTaken(ApplyPair(p, ops[0]).value, ops[1..]);
    }
  }

  // ---------------------------------------------------------------- LlamaModel.permute

  /** LlamaModel.permute on weights of this shape. `h` heads: n_head_kv where that is given, else n_head. */
  function HeadPermutation(shape: Shape, h: nat): seq<Op>
    requires shape != [] && h > 0
  {
    [Reshape([h, 2, shape[0] / h / 2] + shape[1..]), Swap(1, 2), Reshape(shape)]
  }

  lemma {:induction false} VolumeSplit(front: Shape, rest: Shape)
    ensures Volume(front + rest) == Volume(front) * Volume(rest)
  {
    if rest == [] {
      assert front + rest == front;
    } else {
      var n := |rest| - 1;
      assert (front + rest)[..|front| + n] == front + rest[..n];
      VolumeSplit(front, rest[..n]);
      MulAssoc(Volume(front), Volume(rest[..n]), rest[n]);
    }
  }

  lemma {:induction false} RavelSplit(front: Shape, rest: Shape, f: Index, r: Index)
    requires |f| == |front| && |r| == |rest|
    ensures Ravel(front + rest, f + r) == Ravel(front, f) * Volume(rest) + Ravel(rest, r)
  {
    if rest == [] {
      assert front + rest == front && f + r == f;
    } else {
      var n := |rest| - 1;
      assert (front + rest)[..|front| + n] == front + rest[..n] && (f + r)[..|f| + n] == f + r[..n];
      RavelSplit(front, rest[..n], f, r[..n]);
      Distribute(Ravel(front, f), Volume(rest[..n]), Ravel(rest[..n], r[..n]), rest[n]);
    }
  }

  lemma Distribute(x: nat, y: nat, z: nat, n: nat)
    ensures (x * y + z) * n == x * (y * n) + z * n
  {
  }

  lemma InRangeJoin(front: Shape, rest: Shape, f: Index, r: Index)
    requires InRange(front, f) && InRange(rest, r)
    ensures InRange(front + rest, f + r)
  {
  }

  /** The element at `f + r`, read from the storage. */
  lemma AtSplit(data: seq<real>, front: Shape, rest: Shape, f: Index, r: Index)
    requires |data| == Volume(front) * Volume(rest) && InRange(front, f) && InRange(rest, r)
    ensures Ravel(front, f) * Volume(rest) + Ravel(rest, r) < |data|
    ensures Tensor(front + rest, data).At(f + r) == data[Ravel(front, f) * Volume(rest) + Ravel(rest, r)]
  {
    VolumeSplit(front, rest);
    RavelSplit(front, rest, f, r);
    InRangeJoin(front, rest, f, r);
    RavelUnravel(front + rest, f + r);
  }

  /** The same data under two shapes that differ in how the first axes are split. */
  lemma SplitAt(data: seq<real>, rest: Shape, front: Shape, f: Index, front': Shape, f': Index, r: Index)
    requires Volume(front) == Volume(front') && |data| == Volume(front) * Volume(rest)
    requires InRange(front, f) && InRange(front', f') && InRange(rest, r) && Ravel(front, f) == Ravel(front', f')
    ensures Tensor(front + rest, data).At(f + r) == Tensor(front' + rest, data).At(f' + r)
  {
    AtSplit(data, front, rest, f, r);
    AtSplit(data, front', rest, f', r);
  }

  lemma Ravel3(a: nat, b: nat, c: nat, i: nat, j: nat, k: nat)
    ensures Ravel([a, b, c], [i, j, k]) == (i * b + j) * c + k && Volume([a, b, c]) == a * b * c
  {
    assert [a, b, c][..2] == [a, b] && [i, j, k][..2] == [i, j];
    assert [a, b][..1] == [a] && [i, j][..1] == [i] && [a][..0] == [] && [i][..0] == [];
    assert Volume([a]) == a && Volume([a, b]) == a * b;
    assert Ravel([a], [i]) == i && Ravel([a, b], [i, j]) == i * b + j;
  }

  lemma Ravel1(a: nat, i: nat)
    ensures Ravel([a], [i]) == i && Volume([a]) == a
  {
  }

  /** 1, 0 and 2 .. in their places: the order of axes after swapaxes(1, 2). */
  lemma MiddleSwapped(n: nat)
    requires n >= 3
    ensures SwappedAxes(1, 2, n).Ok? && IsOrder(SwappedAxes(1, 2, n).value, n)
    ensures var order := SwappedAxes(1, 2, n).value;
            Place(order, 0) == 0 && Place(order, 1) == 2 && Place(order, 2) == 1 &&
            forall i :: 3 <= i < n ==> Place(order, i) == i
  {
    var order := SwappedAxes(1, 2, n).value;
    SwappedIsOrder(1, 2, n);
    forall i: nat | i < n
      ensures Place(order, i) == if i == 1 then 2 else if i == 2 then 1 else i
    {
      assert order[Place(order, i)] == i;
    }
  }

  lemma SourceMiddle(order: seq<int>, i: nat, j: nat, k: nat, idx: Index)
    requires Place(order, 0) == 0 && Place(order, 1) == 2 && Place(order, 2) == 1
    requires forall m {:trigger Place(order, m)} :: 3 <= m < |idx| + 3 ==> Place(order, m) == m
    ensures Source(order, [i, k, j] + idx) == [i, j, k] + idx
  {
  }

  /** swapaxes(1, 2) on the three axes the rows were split into. */
  lemma SwapMiddle(t: Tensor, a: nat, b: nat, c: nat, rest: Shape)
    requires t.Valid() && t.shape == [a, b, c] + rest
    ensures var r := Apply(t, Swap(1, 2));
            && r.Ok? && r.value.shape == [a, c, b] + rest
            && forall i: nat, j: nat, k: nat, idx: Index :: i < a && j < b && k < c && InRange(rest, idx) ==>
                 r.value.At([i, k, j] + idx) == t.At([i, j, k] + idx)
  {
    var n := |t.shape|;
    MiddleSwapped(n);
    var order := SwappedAxes(1, 2, n).value;
    var v := Permuted(ViewOf(t), order);
    assert v.shape == [a, c, b] + rest;
    forall i: nat, j: nat, k: nat, idx: Index | i < a && j < b && k < c && InRange(rest, idx)
      ensures Store(v).At([i, k, j] + idx) == t.At([i, j, k] + idx)
    {
      InRangeJoin([a, c, b], rest, [i, k, j], idx);
      StoreAt(v, [i, k, j] + idx);
      SourceMiddle(order, i, j, k, idx);
    }
  }

  /** Row `q` of half `j` of head `g`, where a head is two halves of `d` rows. */
  function InHalves(d: nat, g: nat, j: nat, q: nat): nat {
    (g * 2 + j) * d + q
  }

  /** Row `j` of pair `q` of head `g`, where a head is `d` pairs of rows. */
  function InPairs(d: nat, g: nat, q: nat, j: nat): nat {
    (g * d + q) * 2 + j
  }

  /** Within each of `h` heads, rows `q` of the two halves of `t` stand next to each other in `r`. */
  ghost predicate HalvesPaired(t: Tensor, r: Tensor, h: nat, d: nat, rest: Shape) {
    && r.shape == t.shape
    && forall g: nat, j: nat, q: nat, idx: Index {:trigger InPairs(d, g, q, j), InRange(rest, idx)} ::
         g < h && j < 2 && q < d && InRange(rest, idx) ==>
         r.At([InPairs(d, g, q, j)] + idx) == t.At([InHalves(d, g, j, q)] + idx)
  }

  /** The three steps of the head permutation. */
  lemma HeadSteps(t: Tensor, h: nat, d: nat, rest: Shape)
    requires t.Valid() && h > 0 && t.shape == [h * 2 * d] + rest
    ensures var split := Tensor([h, 2, d] + rest, t.data);
            && split.Valid() && Apply(split, Swap(1, 2)).Ok?
            && |Apply(split, Swap(1, 2)).value.data| == |t.data| == Volume([h, d, 2]) * Volume(rest)
            && Run(t, HeadPermutation(t.shape, h)) == Ok(Tensor(t.shape, Apply(split, Swap(1, 2)).value.data))
  {
    var ops := HeadPermutation(t.shape, h);
    HalfOfHead(h, d);
    HeadVolumes(h, d, rest);
    var split := Tensor([h, 2, d] + rest, t.data);
    assert t.shape[1..] == rest;
    ReshapeTensor(t, [h, 2, d] + rest);
    SwapMiddle(split, h, 2, d, rest);
    var swapped := Apply(split, Swap(1, 2)).value;
    ReshapeTensor(swapped, t.shape);
    RunThree(t, ops, split, swapped, Tensor(t.shape, swapped.data));
  }

  lemma HeadVolumes(h: nat, d: nat, rest: Shape)
    ensures Volume([h, 2, d]) == Volume([h, d, 2]) == Volume([h * 2 * d])
    ensures Volume([h, 2, d] + rest) == Volume([h, d, 2] + rest) == Volume([h * 2 * d] + rest)
    ensures Volume([h, d, 2] + rest) == Volume([h, d, 2]) * Volume(rest)
  {
    Ravel3(h, 2, d, 0, 0, 0);
    Ravel3(h, d, 2, 0, 0, 0);
    Ravel1(h * 2 * d, 0);
    MulAssoc(h, 2, d);
    MulAssoc(h, d, 2);
    VolumeSplit([h, 2, d], rest);
    VolumeSplit([h, d, 2], rest);
    VolumeSplit([h * 2 * d], rest);
  }

  lemma ReshapeTensor(t: Tensor, shape: Shape)
    requires t.Valid() && Volume(shape) == |t.data|
    ensures Apply(t, Reshape(shape)) == Ok(Tensor(shape, t.data))
  {
  }

  /** What LlamaModel.permute does to a tensor whose rows divide into `h` heads of two halves. */
  lemma HeadsOfTensor(t: Tensor, h: nat, d: nat, rest: Shape)
    requires t.Valid() && h > 0 && t.shape == [h * 2 * d] + rest
    ensures Run(t, HeadPermutation(t.shape, h)).Ok?
    ensures HalvesPaired(t, Run(t, HeadPermutation(t.shape, h)).value, h, d, rest)
  {
    var split := Tensor([h, 2, d] + rest, t.data);
    HeadSteps(t, h, d, rest);
    var swapped := Apply(split, Swap(1, 2)).value;
    var r := Tensor(t.shape, swapped.data);
    forall g: nat, j: nat, q: nat, idx: Index {:trigger InPairs(d, g, q, j), InRange(rest, idx)}
      | g < h && j < 2 && q < d && InRange(rest, idx)
      ensures r.At([InPairs(d, g, q, j)] + idx) == t.At([InHalves(d, g, j, q)] + idx)
    {
      SwapMiddle(split, h, 2, d, rest);
      assert swapped.At([g, q, j] + idx) == split.At([g, j, q] + idx);
      HeadRow(swapped, t, h, d, rest, g, j, q, idx);
    }
  }

  lemma HeadRow(swapped: Tensor, t: Tensor, h: nat, d: nat, rest: Shape, g: nat, j: nat, q: nat, idx: Index)
    requires h > 0 && g < h && j < 2 && q < d && InRange(rest, idx)
    requires swapped.shape == [h, d, 2] + rest && t.shape == [h * 2 * d] + rest
    requires |swapped.data| == |t.data| == Volume([h, d, 2]) * Volume(rest)
    ensures Tensor(t.shape, swapped.data).At([InPairs(d, g, q, j)] + idx) == swapped.At([g, q, j] + idx)
    ensures t.At([InHalves(d, g, j, q)] + idx) == Tensor([h, 2, d] + rest, t.data).At([g, j, q] + idx)
  {
    HalfOfHead(h, d);
    RowOfHead(h, d, g, j, q);
    Ravel3(h, 2, d, g, j, q);
    Ravel3(h, d, 2, g, q, j);
    Ravel1(h * 2 * d, InPairs(d, g, q, j));
    Ravel1(h * 2 * d, InHalves(d, g, j, q));
    SplitAt(swapped.data, rest, [h * 2 * d], [InPairs(d, g, q, j)], [h, d, 2], [g, q, j], idx);
    SplitAt(t.data, rest, [h * 2 * d], [InHalves(d, g, j, q)], [h, 2, d], [g, j, q], idx);
  }

  lemma HalfOfHead(h: nat, d: nat)
    requires h > 0
    ensures h * 2 * d / h / 2 == d && h * 2 * d == h * d * 2
  {
    Divided(h * 2 * d, h, 2 * d, 0);
  }

  lemma RowOfHead(h: nat, d: nat, g: nat, j: nat, q: nat)
    requires g < h && j < 2 && q < d
    ensures InPairs(d, g, q, j) < h * 2 * d && InHalves(d, g, j, q) < h * 2 * d
  {
    ProductInRange(g, q, h, d);
    ProductInRange(g, j, h, 2);
    ProductInRange(g * 2 + j, q, h * 2, d);
  }

  lemma RunThree(t: Tensor, ops: seq<Op>, a: Tensor, b: Tensor, c: Tensor)
    requires t.Valid() && a.Valid() && b.Valid() && |ops| == 3
    requires Apply(t, ops[0]) == Ok(a) && Apply(a, ops[1]) == Ok(b) && Apply(b, ops[2]) == Ok(c)
    ensures Run(t, ops) == Ok(c)
  {
    assert Run(b, ops[1..][1..]) == Ok(c);
  }

  lemma SwapMiddlePair(p: Pair, a: nat, b: nat, c: nat, cols: nat)
    requires p.Valid() && OneMatrix(p) && AllOnes(p.a.shape[..2]) && p.Shape() == [a, b, c, cols]
    ensures var r := ApplyPair(p, Swap(1, 2));
            && r.Ok? && r.value.Valid() && OneMatrix(r.value) && r.value.Shape() == [a, c, b, cols]
            && r.value.Columns() == cols && r.value.Rank() == p.Rank()
            && Apply(p.Dense(), Swap(1, 2)) == Ok(r.value.Dense())
  {
    var order := SwappedAxes(1, 2, 4).value;
    SwapMiddleFactors(p);
    SwapMiddleShape(p.b.shape);
    SwapCommutes(p, 1, 2);
  }

  lemma SwapMiddleFactors(p: Pair)
    requires p.WellMade() && |p.b.shape| == 4 && AllOnes(p.a.shape[..2])
    ensures SwappedAxes(1, 2, 4).Ok? && IsOrder(SwappedAxes(1, 2, 4).value, 4)
    ensures ApplyPair(p, Swap(1, 2)) == Ok(Pair(p.a, Store(Permuted(ViewOf(p.b), SwappedAxes(1, 2, 4).value))))
  {
    MiddleSwapped(4);
    PermutedRows(p, SwappedAxes(1, 2, 4).value);
  }

  /** Permuting under the last axis leaves A alone. */
  lemma PermutedRows(p: Pair, order: seq<int>)
    requires p.WellMade() && AllOnes(p.a.shape[..|p.a.shape| - 2])
    requires IsOrder(order, |p.b.shape|) && order[|p.b.shape| - 1] == |p.b.shape| - 1
    ensures PermutePair(p, order) == Ok(Pair(p.a, Store(Permuted(ViewOf(p.b), order))))
  {
    var n := |p.b.shape|;
    assert Axes(order, n) == order;
    FromEndAxes(order, n);
    assert Apply(p.b, Permute(FromEnd(order, n))) == Ok(Store(Permuted(ViewOf(p.b), order)));
  }

  lemma SwapMiddleShape(shape: Shape)
    requires |shape| == 4 && SwappedAxes(1, 2, 4).Ok? && IsOrder(SwappedAxes(1, 2, 4).value, 4)
    ensures Reordered(shape, SwappedAxes(1, 2, 4).value) == [shape[0], shape[2], shape[1], shape[3]]
  {
  }

  /** The rows of a matrix split into heads, halves and rows of a half. */
  lemma SplitRows(p: Pair, h: nat, d: nat, cols: nat)
    requires p.Valid() && OneMatrix(p) && p.Shape() == [h * 2 * d, cols]
    ensures var q := ReshapedFactors(p, [h, 2, d, cols]);
            && ReshapePair(p, [h, 2, d, cols]) == Ok(q) && q.Valid() && OneMatrix(q)
            && q.Shape() == [h, 2, d, cols] && AllOnes(q.a.shape[..2])
            && Apply(p.Dense(), Reshape([h, 2, d, cols])) == Ok(q.Dense())
  {
    var shape := [h, 2, d, cols];
    HeadVolumes(h, d, []);
    assert p.b.shape[..1] == [h * 2 * d] && shape[..3] == [h, 2, d];
    ReshapeAccepts(p, shape);
    ReshapeSplits(p, shape);
  }

  /** And the rows put together again after the middle axes were exchanged. */
  lemma JoinRows(p: Pair, h: nat, d: nat, cols: nat)
    requires p.Valid() && OneMatrix(p) && p.Shape() == [h, d, 2, cols]
    ensures var q := ReshapedFactors(p, [h * 2 * d, cols]);
            && ReshapePair(p, [h * 2 * d, cols]) == Ok(q) && q.Valid()
            && Apply(p.Dense(), Reshape([h * 2 * d, cols])) == Ok(q.Dense())
  {
    var shape := [h * 2 * d, cols];
    HeadVolumes(h, d, []);
    assert p.b.shape[..3] == p.Shape()[..3] == [h, d, 2] && shape[..1] == [h * 2 * d];
    ReshapeAccepts(p, shape);
  }

  lemma ReshapeSplits(p: Pair, shape: Shape)
    requires p.Valid() && Reshapes(p, shape)
    ensures var q := ReshapedFactors(p, shape);
            q.Valid() && OneMatrix(q) && q.Shape() == shape && AllOnes(q.a.shape[..|shape| - 2])
  {
    ReshapeFactors(p, shape);
  }

  /** The three steps on the factors and on the product, for a matrix of this shape. */
  lemma HeadStepsOfPair(p: Pair, h: nat, d: nat, cols: nat, ops: seq<Op>)
    requires p.Valid() && OneMatrix(p) && p.Shape() == [h * 2 * d, cols]
    requires ops == [Reshape([h, 2, d, cols]), Swap(1, 2), Reshape([h * 2 * d, cols])]
    ensures RunPair(p, ops).Ok? && RunPair(p, ops).value.Valid()
    ensures Run(p.Dense(), ops) == Ok(RunPair(p, ops).value.Dense())
  {
    SplitRows(p, h, d, cols);
    var split := ReshapedFactors(p, [h, 2, d, cols]);
    SwapMiddlePair(split, h, 2, d, cols);
    var swapped := ApplyPair(split, Swap(1, 2)).value;
    JoinRows(swapped, h, d, cols);
    var joined := ReshapedFactors(swapped, [h * 2 * d, cols]);
    RunThreePairs(p, ops, split, swapped, joined);
    RunThree(p.Dense(), ops, split.Dense(), swapped.Dense(), joined.Dense());
  }

  /** LlamaModel.permute on the factors of a matrix gives factors of the permuted matrix. */
  lemma HeadsOfPair(p: Pair, h: nat, d: nat)
    requires p.Valid() && h > 0 && |p.b.shape| == 2 && p.Shape()[0] == h * 2 * d
    ensures var ops := HeadPermutation(p.Shape(), h);
            RunPair(p, ops).Ok? && RunPair(p, ops).value.Valid() &&
            Run(p.Dense(), ops) == Ok(RunPair(p, ops).value.Dense())
    ensures var r := RunPair(p, HeadPermutation(p.Shape(), h)).value;
            HalvesPaired(p.Dense(), r.Dense(), h, d, [p.Columns()])
  {
    var cols, m := p.Columns(), p.Shape()[0];
    VolumeLastTwo(p.a.shape, [], p.Rank(), cols);
    assert p.Shape() == [m, cols];
    HeadOps(m, h, d, cols);
    HeadStepsOfPair(p, h, d, cols, HeadPermutation([m, cols], h));
    HeadsOfTensor(p.Dense(), h, d, [cols]);
  }

  lemma HeadOps(m: nat, h: nat, d: nat, cols: nat)
    requires h > 0 && m == h * 2 * d
    ensures HeadPermutation([m, cols], h) == [Reshape([h, 2, d, cols]), Swap(1, 2), Reshape([m, cols])]
  {
    HalfOfHead(h, d);
    assert [h, 2, d] + [m, cols][1..] == [h, 2, d, cols];
  }

  lemma RunThreePairs(p: Pair, ops: seq<Op>, a: Pair, b: Pair, c: Pair)
    requires p.WellMade() && a.WellMade() && b.WellMade() && |ops| == 3
    requires ApplyPair(p, ops[0]) == Ok(a) && ApplyPair(a, ops[1]) == Ok(b) && ApplyPair(b, ops[2]) == Ok(c)
    ensures RunPair(p, ops) == Ok(c)
  {
    assert RunPair(b, ops[1..][1..]) == Ok(c);
  }
}
