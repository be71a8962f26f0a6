/** Dense tensors stored in row-major order, and the operations on them that model conversion uses. */
module Tensors {
  type Shape = seq<nat>
  type Index = seq<nat>

  datatype Result<T> = Ok(value: T) | Err(why: Refusal)

  datatype Refusal =
    | Unsupported        // NotImplementedError
    | AssertionFailed    // AssertionError
    | BadArgument        // what the tensor library itself refuses

  /** The number of elements of a tensor of this shape. */
  function Volume(shape: Shape): nat {
    if shape == [] then 1 else Volume(shape[..|shape| - 1]) * shape[|shape| - 1]
  }

  predicate InRange(shape: Shape, idx: Index) {
    |idx| == |shape| && forall i :: 0 <= i < |idx| ==> idx[i] < shape[i]
  }

  /** Where the element at `idx` is stored. */
  function Ravel(shape: Shape, idx: Index): nat
    requires |idx| == |shape|
  {
    if shape == [] then 0
    else Ravel(shape[..|shape| - 1], idx[..|idx| - 1]) * shape[|shape| - 1] + idx[|idx| - 1]
  }

  /** The index of the element stored at `i`. */
  function Unravel(shape: Shape, i: nat): Index
    requires i < Volume(shape)
    ensures |Unravel(shape, i)| == |shape|
  {
    if shape == [] then []
    else
      var last := shape[|shape| - 1];
      QuotientInRange(i, Volume(shape[..|shape| - 1]), last);
      Unravel(shape[..|shape| - 1], i / last) + [i % last]
  }

  lemma TimesGrows(a: int, b: int, n: nat)
    ensures a <= b ==> a * n <= b * n
  {
  }

  lemma QuotientInRange(i: nat, m: nat, n: nat)
    requires i < m * n
    ensures n > 0 && i / n < m && i == i / n * n + i % n
  {
    TimesGrows(m, i / n, n);
  }

  lemma ProductInRange(q: nat, r: nat, m: nat, n: nat)
    requires q < m && r < n
    ensures q * n + r < m * n
    ensures (q * n + r) / n == q && (q * n + r) % n == r
  {
    TimesGrows(q + 1, m, n);
    Divided(q * n + r, n, q, r);
  }

  lemma Divided(i: nat, n: nat, q: nat, r: nat)
    requires i == q * n + r && r < n
    ensures i / n == q && i % n == r
  {
    assert i == i / n * n + i % n;
    TimesGrows(i / n + 1, q, n);
    TimesGrows(q + 1, i / n, n);
  }

  lemma {:induction false} RavelUnravel(shape: Shape, idx: Index)
    requires InRange(shape, idx)
    ensures Ravel(shape, idx) < Volume(shape)
    ensures Unravel(shape, Ravel(shape, idx)) == idx
  {
    if shape != [] {
      var n := |shape| - 1;
      RavelUnravel(shape[..n], idx[..n]);
      ProductInRange(Ravel(shape[..n], idx[..n]), idx[n], Volume(shape[..n]), shape[n]);
      assert idx == idx[..n] + [idx[n]];
    }
  }

  lemma {:induction false} UnravelRavel(shape: Shape, i: nat)
    requires i < Volume(shape)
    ensures InRange(shape, Unravel(shape, i))
    ensures Ravel(shape, Unravel(shape, i)) == i
  {
    if shape != [] {
      var n := |shape| - 1;
      QuotientInRange(i, Volume(shape[..n]), shape[n]);
      UnravelRavel(shape[..n], i / shape[n]);
      assert Unravel(shape, i)[..n] == Unravel(shape[..n], i / shape[n]);
    }
  }

  lemma LowerRow(p: nat, q: nat, i: nat, j: nat, n: nat)
    requires p < q && i < n
    ensures p * n + i < q * n + j
  {
    TimesGrows(p + 1, q, n);
  }

  /** Elements are stored in the order of their indices, the first axis counting most. */
  lemma {:induction false} RowMajor(shape: Shape, idx: Index, other: Index, d: nat)
    requires InRange(shape, idx) && InRange(shape, other)
    requires d < |shape| && idx[..d] == other[..d] && idx[d] < other[d]
    ensures Ravel(shape, idx) < Ravel(shape, other)
  {
    var n := |shape| - 1;
    if d < n {
      var i, j := idx[..n], other[..n];
      assert i[..d] == idx[..d] && j[..d] == other[..d];
      RowMajor(shape[..n], i, j, d);
      LowerRow(Ravel(shape[..n], i), Ravel(shape[..n], j), idx[n], other[n], shape[n]);
    }
  }

  datatype Tensor = Tensor(shape: Shape, data: seq<real>) {
    predicate Valid() {
      |data| == Volume(shape)
    }

    function At(idx: Index): real {
      if Valid() && InRange(shape, idx) then
        RavelUnravel(shape, idx);
        data[Ravel(shape, idx)]
      else 0.0
    }
  }

  /** A tensor without its storage: the element at every index. */
  datatype View = View(shape: Shape, at: Index -> real)

  function ViewOf(t: Tensor): (v: View)
    ensures v.shape == t.shape
  {
    View(t.shape, idx => t.At(idx))
  }

  function Store(v: View): (t: Tensor)
    ensures t.shape == v.shape && t.Valid()
  {
    Tensor(v.shape, seq(Volume(v.shape), i requires 0 <= i < Volume(v.shape) => v.at(Unravel(v.shape, i))))
  }

  lemma StoreAt(v: View, idx: Index)
    requires InRange(v.shape, idx)
    ensures Store(v).At(idx) == v.at(idx)
  {
    RavelUnravel(v.shape, idx);
  }

  /** `t` is what stores a view with the same elements. */
  lemma IsStore(t: Tensor, v: View)
    requires t.Valid() && t.shape == v.shape
    requires forall idx :: InRange(t.shape, idx) ==> t.At(idx) == v.at(idx)
    ensures t == Store(v)
  {
    forall i | 0 <= i < |t.data|
      ensures t.data[i] == v.at(Unravel(t.shape, i))
    {
      UnravelRavel(t.shape, i);
      assert t.At(Unravel(t.shape, i)) == t.data[i];
    }
    assert t.data == Store(v).data;
  }

  lemma StoreOfView(t: Tensor)
    requires t.Valid()
    ensures Store(ViewOf(t)) == t
  {
    IsStore(t, ViewOf(t));
  }

  // ---------------------------------------------------------------- operations

  datatype Op =
    | Select(i: int)                   // t[i]
    | Slice(start: int, stop: int)     // t[start:stop]
    | Reshape(shape: seq<int>)         // -1 stands for what is left over
    | Permute(dims: seq<int>)
    | Swap(dim0: int, dim1: int)       // swapaxes

  /** A position counted from the end if it is negative. */
  function FromStart(i: int, n: nat): int {
    if i < 0 then i + n else i
  }

  /** A slice bound, as far as it lies in a sequence of length `n`. */
  function Clip(i: int, n: nat): (r: nat)
    ensures r <= n
  {
    if FromStart(i, n) < 0 then 0 else if FromStart(i, n) > n then n else FromStart(i, n)
  }

  function SliceLength(start: int, stop: int, n: nat): nat {
    if Clip(start, n) <= Clip(stop, n) then Clip(stop, n) - Clip(start, n) else 0
  }

  function Selected(v: View, i: nat): View
    requires v.shape != []
  {
    View(v.shape[1..], idx => v.at([i] + idx))
  }

  function SlicedShape(shape: Shape, start: int, stop: int): Shape
    requires shape != []
  {
    [SliceLength(start, stop, shape[0])] + shape[1..]
  }

  /** The index in the whole tensor for `idx` in the slice from `lo`. */
  function Shifted(idx: Index, lo: nat): Index {
    if idx == [] then [] else [idx[0] + lo] + idx[1..]
  }

  function Sliced(v: View, start: int, stop: int): View
    requires v.shape != []
  {
    View(SlicedShape(v.shape, start, stop), idx => v.at(Shifted(idx, Clip(start, v.shape[0]))))
  }

  /** Where axis `d` first stands in `order`. */
  function Place(order: seq<int>, d: int): (i: nat)
    ensures d in order ==> i < |order| && order[i] == d
  {
    if order == [] || order[0] == d then 0 else 1 + Place(order[1..], d)
  }

  /** `order` lists the axes `0 .. n - 1`, each once. */
  predicate IsOrder(order: seq<int>, n: nat) {
    && |order| == n
    && (forall i :: 0 <= i < n ==> 0 <= order[i] < n)
    && (forall i, j :: 0 <= i < j < n ==> order[i] != order[j])
    && forall d {:trigger Place(order, d)} :: 0 <= d < n ==> Place(order, d) < n && order[Place(order, d)] == d
  }

  function Axes(dims: seq<int>, n: nat): seq<int> {
    seq(|dims|, i requires 0 <= i < |dims| => FromStart(dims[i], n))
  }

  /** The index before the axes were reordered, for the index `idx` after it. */
  function Source(order: seq<int>, idx: Index): (r: Index)
    ensures |r| == |idx|
  {
    seq(|idx|, d requires 0 <= d < |idx| => if Place(order, d) < |idx| then idx[Place(order, d)] else 0)
  }

  function Reordered(shape: Shape, order: seq<int>): Shape
    requires IsOrder(order, |shape|)
  {
    seq(|shape|, i requires 0 <= i < |shape| => shape[order[i]])
  }

  function Permuted(v: View, order: seq<int>): View
    requires IsOrder(order, |v.shape|)
  {
    View(Reordered(v.shape, order), idx => v.at(Source(order, idx)))
  }

  /** 0 .. n - 1 with two entries exchanged, if both exist. */
  function SwappedAxes(dim0: int, dim1: int, n: nat): Result<seq<int>> {
    var i, j := FromStart(dim0, n), FromStart(dim1, n);
    if 0 <= i < n && 0 <= j < n then Ok(seq(n, d => d)[i := j][j := i]) else Err(BadArgument)
  }

  /** The product of the entries, those of -1 left out. */
  function KnownProduct(shape: seq<int>): int {
    if shape == [] then 1
    else
      var last := shape[|shape| - 1];
      KnownProduct(shape[..|shape| - 1]) * if last == -1 then 1 else last
  }

  /** A new shape for `size` elements with every -1 replaced by what is left over. */
  function Expand(shape: seq<int>, size: nat): (r: Result<seq<int>>)
    ensures r.Ok? ==> |r.value| == |shape|
  {
    if -1 !in shape then Ok(shape)
    else if KnownProduct(shape) == 0 then Err(BadArgument)
    else if size % KnownProduct(shape) != 0 then Err(AssertionFailed)
    else Ok(Filled(shape, size / KnownProduct(shape)))
  }

  /** The shape with every -1 replaced by `q`. */
  function Filled(shape: seq<int>, q: int): (r: seq<int>)
    ensures |r| == |shape|
  {
    seq(|shape|, i requires 0 <= i < |shape| => if shape[i] == -1 then q else shape[i])
  }

  predicate Proper(shape: seq<int>) {
    forall i :: 0 <= i < |shape| ==> shape[i] >= 0
  }

  function Reshaped(t: Tensor, shape: seq<int>): (r: Result<Tensor>)
    requires t.Valid()
    ensures r.Ok? ==> r.value.Valid() && r.value.data == t.data && r.value.shape == shape
  {
    if Proper(shape) && Volume(shape) == |t.data| then Ok(Tensor(shape, t.data)) else Err(BadArgument)
  }

  function Apply(t: Tensor, op: Op): (r: Result<Tensor>)
    requires t.Valid()
    ensures r.Ok? ==> r.value.Valid()
  {
    var n := |t.shape|;
    match op
    case Select(i) =>
      if n > 0 && 0 <= FromStart(i, t.shape[0]) < t.shape[0] then
        Ok(Store(Selected(ViewOf(t), FromStart(i, t.shape[0]))))
      else Err(BadArgument)
    case Slice(start, stop) =>
      if n > 0 then Ok(Store(Sliced(ViewOf(t), start, stop))) else Err(BadArgument)
    case Reshape(shape) =>
      (match Expand(shape, |t.data|)
       case Err(why) => Err(why)
       case Ok(expanded) => Reshaped(t, expanded))
    case Permute(dims) =>
      if IsOrder(Axes(dims, n), n) then Ok(Store(Permuted(ViewOf(t), Axes(dims, n)))) else Err(BadArgument)
    case Swap(dim0, dim1) =>
      (match SwappedAxes(dim0, dim1, n)
       case Err(why) => Err(why)
       case Ok(order) => SwappedIsOrder(dim0, dim1, n); Ok(Store(Permuted(ViewOf(t), order))))
  }

  lemma SwappedIsOrder(dim0: int, dim1: int, n: nat)
    ensures var r := SwappedAxes(dim0, dim1, n); r.Ok? ==> IsOrder(r.value, n)
  {
    var r := SwappedAxes(dim0, dim1, n);
    if r.Ok? {
      var i, j := FromStart(dim0, n), FromStart(dim1, n);
      forall d | 0 <= d < n
        ensures Place(r.value, d) < n && r.value[Place(r.value, d)] == d
      {
        assert r.value[if d == i then j else if d == j then i else d] == d;
      }
    }
  }

  /** One operation after the other, up to the first that is refused. */
  function Run(t: Tensor, ops: seq<Op>): (r: Result<Tensor>)
    requires t.Valid()
    ensures r.Ok? ==> r.value.Valid()
    decreases |ops|
  {
    if ops == [] then Ok(t)
    else
      match Apply(t, ops[0])
      case Err(why) => Err(why)
      case Ok(next) => Run(next, ops[1..])
  }

  /** torch.stack along a new first axis; the tensors must have one shape. */
  function Stack(ts: seq<Tensor>): (r: Result<Tensor>)
    ensures r.Ok? ==> r.value.Valid() && ts != [] && r.value.shape == [|ts|] + ts[0].shape
  {
    if ts == [] || exists i :: 0 <= i < |ts| && ts[i].shape != ts[0].shape then Err(BadArgument)
    else Ok(Store(Stacked(ts)))
  }

  function Stacked(ts: seq<Tensor>): View
    requires ts != []
  {
    View([|ts|] + ts[0].shape, idx => if idx != [] && idx[0] < |ts| then ts[idx[0]].At(idx[1..]) else 0.0)
  }

  // ---------------------------------------------------------------- what the operations do, element by element

  /** A position is counted from the end if negative; one that does not exist is refused. */
  lemma SelectMeaning(t: Tensor, i: int, idx: Index)
    requires t.Valid() && t.shape != []
    ensures Apply(t, Select(i)).Ok? <==> 0 <= i + t.shape[0] && i < t.shape[0]
    ensures Apply(t, Select(i)).Ok? && InRange(t.shape[1..], idx) ==>
              var r := Apply(t, Select(i)).value;
              && r.shape == t.shape[1..]
              && r.At(idx) == t.At([if i < 0 then t.shape[0] + i else i] + idx)
  {
    if 0 <= i + t.shape[0] && i < t.shape[0] && InRange(t.shape[1..], idx) {
      StoreAt(Selected(ViewOf(t), FromStart(i, t.shape[0])), idx);
    }
  }

  /** A bound is counted from the end if negative, and cut to size. */
  lemma ClipMeaning(i: int, n: nat)
    ensures Clip(i, n) == if i >= n then n else if i >= 0 then i else if i + n >= 0 then i + n else 0
  {
  }

  /** A slice runs from the first bound to before the second. */
  lemma SliceMeaning(t: Tensor, start: int, stop: int, row: nat, rest: Index)
    requires t.Valid() && t.shape != [] && InRange(t.shape[1..], rest)
    ensures var r, lo, hi := Apply(t, Slice(start, stop)), Clip(start, t.shape[0]), Clip(stop, t.shape[0]);
            && r.Ok? && r.value.shape == [if lo <= hi then hi - lo else 0] + t.shape[1..]
            && (lo + row < hi ==> r.value.At([row] + rest) == t.At([lo + row] + rest))
  {
    var r := Store(Sliced(ViewOf(t), start, stop));
    SliceIs(t, start, stop);
    SliceShape(t, start, stop, r);
    SliceElement(t, start, stop, r, row, rest);
  }

  lemma SliceShape(t: Tensor, start: int, stop: int, r: Tensor)
    requires t.shape != [] && r == Store(Sliced(ViewOf(t), start, stop))
    ensures var lo, hi := Clip(start, t.shape[0]), Clip(stop, t.shape[0]);
            r.shape == [if lo <= hi then hi - lo else 0] + t.shape[1..]
  {
  }

  lemma SliceElement(t: Tensor, start: int, stop: int, r: Tensor, row: nat, rest: Index)
    requires t.shape != [] && InRange(t.shape[1..], rest) && r == Store(Sliced(ViewOf(t), start, stop))
    ensures var lo, hi := Clip(start, t.shape[0]), Clip(stop, t.shape[0]);
            lo + row < hi ==> r.At([row] + rest) == t.At([lo + row] + rest)
  {
    if Clip(start, t.shape[0]) + row < Clip(stop, t.shape[0]) {
      var v, idx := ViewOf(t), [Clip(start, t.shape[0]) + row] + rest;
      SlicedAt(v, start, stop, row, rest);
      assert r.At([row] + rest) == v.at(idx);
    }
  }

  lemma SliceIs(t: Tensor, start: int, stop: int)
    requires t.Valid() && t.shape != []
    ensures Apply(t, Slice(start, stop)) == Ok(Store(Sliced(ViewOf(t), start, stop)))
  {
  }

  lemma SlicedAt(v: View, start: int, stop: int, row: nat, rest: Index)
    requires v.shape != [] && Clip(start, v.shape[0]) + row < Clip(stop, v.shape[0]) && InRange(v.shape[1..], rest)
    ensures Store(Sliced(v, start, stop)).At([row] + rest) == v.at([Clip(start, v.shape[0]) + row] + rest)
  {
    JoinInRange(SliceLength(start, stop, v.shape[0]), v.shape[1..], row, rest);
    StoreAt(Sliced(v, start, stop), [row] + rest);
    ShiftedJoin(row, rest, Clip(start, v.shape[0]));
  }

  lemma ShiftedJoin(row: nat, rest: Index, lo: nat)
    ensures Shifted([row] + rest, lo) == [lo + row] + rest
  {
    assert ([row] + rest)[1..] == rest;
  }

  lemma JoinInRange(n: nat, shape: Shape, i: nat, idx: Index)
    requires i < n && InRange(shape, idx)
    ensures InRange([n] + shape, [i] + idx)
  {
  }

  lemma SourceIs(order: seq<int>, from: Index, to: Index)
    requires IsOrder(order, |from|) && |to| == |from|
    requires forall i :: 0 <= i < |to| ==> to[i] == from[order[i]]
    ensures Source(order, to) == from
  {
    forall d | 0 <= d < |from|
      ensures Source(order, to)[d] == from[d]
    {
      assert order[Place(order, d)] == d;
    }
  }

  lemma ReorderedInRange(shape: Shape, order: seq<int>, from: Index, to: Index)
    requires IsOrder(order, |shape|) && InRange(shape, from) && |to| == |from|
    requires forall i :: 0 <= i < |to| ==> to[i] == from[order[i]]
    ensures InRange(Reordered(shape, order), to)
  {
  }

  /**
   Permuting moves the element at `from` to where the entries of `from` stand in the new order, and lengths with them;
   axes are counted from the end if negative, and there must be each just once.
   */
  lemma PermuteMeaning(t: Tensor, dims: seq<int>, from: Index, to: Index)
    requires t.Valid() && Apply(t, Permute(dims)).Ok? && InRange(t.shape, from) && |to| == |from| == |dims|
    requires forall i :: 0 <= i < |dims| ==> 0 <= dims[i] + |dims| && dims[i] < |dims|
    requires forall i :: 0 <= i < |to| ==> to[i] == from[if dims[i] < 0 then dims[i] + |from| else dims[i]]
    ensures var r := Apply(t, Permute(dims));
            && |r.value.shape| == |t.shape|
            && (forall i :: 0 <= i < |to| ==>
                  r.value.shape[i] == t.shape[if dims[i] < 0 then dims[i] + |from| else dims[i]])
            && InRange(r.value.shape, to) && r.value.At(to) == t.At(from)
  {
    var order := Axes(dims, |t.shape|);
    forall i | 0 <= i < |to|
      ensures order[i] == if dims[i] < 0 then dims[i] + |from| else dims[i]
      ensures 0 <= order[i] < |to|
    {
    }
    PermutedAt(t, order, from, to);
  }

  lemma PermutedAt(t: Tensor, order: seq<int>, from: Index, to: Index)
    requires t.Valid() && IsOrder(order, |t.shape|) && InRange(t.shape, from) && |to| == |from|
    requires forall i :: 0 <= i < |to| ==> to[i] == from[order[i]]
    ensures InRange(Reordered(t.shape, order), to)
    ensures Store(Permuted(ViewOf(t), order)).At(to) == t.At(from)
  {
    ReorderedInRange(t.shape, order, from, to);
    SourceIs(order, from, to);
    StoreAt(Permuted(ViewOf(t), order), to);
  }

  /** What permute takes: every axis once, as itself or counted from the end. */
  lemma PermuteTakes(t: Tensor, dims: seq<int>)
    requires t.Valid()
    ensures var n := |t.shape|;
            Apply(t, Permute(dims)).Ok? <==>
            && |dims| == n
            && (forall i :: 0 <= i < n ==> 0 <= dims[i] + n && dims[i] < n)
            && forall i, j :: 0 <= i < j < n ==>
                 dims[i] != dims[j] && dims[i] + n != dims[j] && dims[i] != dims[j] + n
  {
    var n, order := |t.shape|, Axes(dims, |t.shape|);
    if |dims| == n {
      assert forall i :: 0 <= i < n ==> order[i] == FromStart(dims[i], n);
      if (forall i :: 0 <= i < n ==> 0 <= order[i] < n) && forall i, j :: 0 <= i < j < n ==> order[i] != order[j] {
        DistinctIsOrder(order);
      }
    }
  }

  /** Numbers below `n`, as many as that and all different, are all of them. */
  lemma DistinctIsOrder(order: seq<int>)
    requires forall i :: 0 <= i < |order| ==> 0 <= order[i] < |order|
    requires forall i, j :: 0 <= i < j < |order| ==> order[i] != order[j]
    ensures IsOrder(order, |order|)
  {
    AllDifferent(order, |order|);
    UpToSize(|order|);
    forall d | 0 <= d < |order|
      ensures d in order
    {
      Full(Elements(order, |order|), UpTo(|order|));
      assert d in Elements(order, |order|);
      ElementsIn(order, |order|, d);
    }
  }

  function Elements(order: seq<int>, k: nat): set<int>
    requires k <= |order|
  {
    if k == 0 then {} else Elements(order, k - 1) + {order[k - 1]}
  }

  lemma {:induction false} ElementsIn(order: seq<int>, k: nat, d: int)
    requires k <= |order|
    ensures d in Elements(order, k) <==> exists i :: 0 <= i < k && order[i] == d
  {
    if k > 0 {
      ElementsIn(order, k - 1, d);
    }
  }

  lemma {:induction false} AllDifferent(order: seq<int>, k: nat)
    requires k <= |order|
    requires forall i :: 0 <= i < |order| ==> 0 <= order[i] < |order|
    requires forall i, j :: 0 <= i < j < |order| ==> order[i] != order[j]
    ensures |Elements(order, k)| == k && Elements(order, k) <= UpTo(|order|)
  {
    if k > 0 {
      AllDifferent(order, k - 1);
      ElementsIn(order, k - 1, order[k - 1]);
      InUpTo(|order|, order[k - 1]);
    }
  }

  function UpTo(n: nat): set<int> {
    if n == 0 then {} else UpTo(n - 1) + {n - 1}
  }

  lemma {:induction false} InUpTo(n: nat, d: int)
    ensures d in UpTo(n) <==> 0 <= d < n
  {
    if n > 0 {
      InUpTo(n - 1, d);
    }
  }

  lemma {:induction false} UpToSize(n: nat)
    ensures |UpTo(n)| == n && forall d :: d in UpTo(n) <==> 0 <= d < n
  {
    if n > 0 {
      UpToSize(n - 1);
    }
  }

  lemma Full(a: set<int>, b: set<int>)
    requires a <= b && |a| == |b|
    ensures a == b
  {
    assert |b - a| == |b| - |a|;
  }

  lemma SwappedAt(t: Tensor, order: seq<int>, i: nat, j: nat, idx: Index)
    requires t.Valid() && IsOrder(order, |t.shape|) && InRange(t.shape, idx) && i < |t.shape| && j < |t.shape|
    requires forall d :: 0 <= d < |order| ==> order[d] == if d == i then j else if d == j then i else d
    ensures var r, to := Store(Permuted(ViewOf(t), order)), idx[i := idx[j]][j := idx[i]];
            && r.shape == t.shape[i := t.shape[j]][j := t.shape[i]]
            && InRange(r.shape, to) && r.At(to) == t.At(idx)
  {
    assert Reordered(t.shape, order) == t.shape[i := t.shape[j]][j := t.shape[i]];
    PermutedAt(t, order, idx, idx[i := idx[j]][j := idx[i]]);
  }

  /** Exchanging two axes exchanges two lengths and the same two entries of every index; others are refused. */
  lemma SwapMeaning(t: Tensor, dim0: int, dim1: int, idx: Index)
    requires t.Valid()
    ensures Apply(t, Swap(dim0, dim1)).Ok? <==>
            0 <= dim0 + |t.shape| && dim0 < |t.shape| && 0 <= dim1 + |t.shape| && dim1 < |t.shape|
    ensures Apply(t, Swap(dim0, dim1)).Ok? && InRange(t.shape, idx) ==>
              var i, j := if dim0 < 0 then dim0 + |idx| else dim0, if dim1 < 0 then dim1 + |idx| else dim1;
              var r := Apply(t, Swap(dim0, dim1)).value;
              && r.shape == t.shape[i := t.shape[j]][j := t.shape[i]]
              && InRange(r.shape, idx[i := idx[j]][j := idx[i]])
              && r.At(idx[i := idx[j]][j := idx[i]]) == t.At(idx)
  {
    var n, order := |t.shape|, SwappedAxes(dim0, dim1, |t.shape|);
    if order.Ok? && InRange(t.shape, idx) {
      SwappedIsOrder(dim0, dim1, n);
      SwappedAt(t, order.value, FromStart(dim0, n), FromStart(dim1, n), idx);
    }
  }

  /** What stack takes: one or more tensors of one shape. */
  lemma StackTakes(ts: seq<Tensor>)
    ensures Stack(ts).Ok? <==> ts != [] && forall i, j :: 0 <= i < |ts| && 0 <= j < |ts| ==> ts[i].shape == ts[j].shape
  {
  }

  lemma StackMeaning(ts: seq<Tensor>, x: nat, idx: Index)
    requires Stack(ts).Ok? && x < |ts| && InRange(ts[0].shape, idx)
    ensures Stack(ts).value.At([x] + idx) == ts[x].At(idx)
  {
    JoinInRange(|ts|, ts[0].shape, x, idx);
    StoreAt(Stacked(ts), [x] + idx);
    assert ([x] + idx)[1..] == idx;
  }

  /** The shape is -1 at `k` and proper elsewhere. */
  predicate OpenAt(shape: seq<int>, k: int) {
    0 <= k < |shape| && shape[k] == -1 && forall i :: 0 <= i < |shape| && i != k ==> shape[i] >= 0
  }

  lemma {:induction false} VolumeIsProduct(shape: Shape)
    ensures KnownProduct(shape) == Volume(shape)
  {
    if shape != [] {
      VolumeIsProduct(shape[..|shape| - 1]);
    }
  }

  lemma {:induction false} FilledVolume(shape: seq<int>, k: int, q: nat)
    requires OpenAt(shape, k)
    ensures Proper(Filled(shape, q)) && Volume(Filled(shape, q)) == KnownProduct(shape) * q
  {
    var n := |shape| - 1;
    var front := shape[..n];
    assert Filled(shape, q)[..n] == Filled(front, q);
    if k == n {
      assert Filled(front, q) == front;
      VolumeIsProduct(front);
    } else {
      FilledVolume(front, k, q);
      assert KnownProduct(front) * q * shape[n] == KnownProduct(front) * shape[n] * q;
    }
  }

  /** Reshaping keeps every element at its place in storage. */
  lemma ReshapeMeaning(t: Tensor, shape: seq<int>, idx: Index, to: Index)
    requires t.Valid() && Apply(t, Reshape(shape)).Ok?
    ensures var r := Apply(t, Reshape(shape)).value;
            && |r.shape| == |shape| && (forall i :: 0 <= i < |shape| && shape[i] >= 0 ==> r.shape[i] == shape[i])
            && (InRange(t.shape, idx) && InRange(r.shape, to) && Ravel(t.shape, idx) == Ravel(r.shape, to) ==>
                  r.At(to) == t.At(idx))
  {
    ExpandMeaning(shape, |t.data|);
  }

  /**
   Every -1 is replaced by the number of elements over the product of the other lengths, which must divide it. Where
   just one length is -1, the shape then holds all elements.
   */
  lemma ExpandMeaning(shape: seq<int>, size: nat)
    requires Expand(shape, size).Ok?
    ensures var r, p := Expand(shape, size).value, KnownProduct(shape);
            && |r| == |shape|
            && (forall i :: 0 <= i < |shape| && shape[i] != -1 ==> r[i] == shape[i])
            && (forall i :: 0 <= i < |shape| && shape[i] == -1 ==> r[i] * p == size)
            && (forall k :: OpenAt(shape, k) ==> Proper(r) && Volume(r) == size)
  {
    if -1 in shape {
      Divides(KnownProduct(shape), size);
      forall k | OpenAt(shape, k)
        ensures Proper(Expand(shape, size).value) && Volume(Expand(shape, size).value) == size
      {
        KnownIsPositive(shape, k);
        FilledVolume(shape, k, size / KnownProduct(shape));
      }
    }
  }

  lemma Divides(p: int, size: int)
    requires p != 0 && size % p == 0
    ensures size / p * p == size == p * (size / p)
  {
    assert size == p * (size / p) + size % p;
  }

  lemma {:induction false} KnownIsPositive(shape: seq<int>, k: int)
    requires OpenAt(shape, k)
    ensures KnownProduct(shape) >= 0
  {
    var n := |shape| - 1;
    if k == n {
      VolumeIsProduct(shape[..n]);
    } else {
      KnownIsPositive(shape[..n], k);
      TimesGrows(0, KnownProduct(shape[..n]), shape[n]);
    }
  }
}
