/** torch.stack and torch.cat of pairs of factors. */
module LoraJoins {
  import opened Tensors
  import opened Lora

  function As(ps: seq<Pair>): seq<Tensor> {
    seq(|ps|, i requires 0 <= i < |ps| => ps[i].a)
  }

  function Bs(ps: seq<Pair>): seq<Tensor> {
    seq(|ps|, i requires 0 <= i < |ps| => ps[i].b)
  }

  ghost function Denses(ps: seq<Pair>): seq<Tensor>
    requires forall i :: 0 <= i < |ps| ==> ps[i].Valid()
  {
    seq(|ps|, i requires 0 <= i < |ps| => ps[i].Dense())
  }

  /** torch.stack of pairs */
  function StackPairs(ps: seq<Pair>): (r: Result<Pair>) {
    Join(Stack(As(ps)), Stack(Bs(ps)))
  }

  /** All pairs have factors of the same shapes. */
  ghost predicate Alike(ps: seq<Pair>) {
    && ps != [] && |ps[0].a.shape| >= 2
    && forall i :: 0 <= i < |ps| ==> ps[i].Valid() && ps[i].a.shape == ps[0].a.shape && ps[i].b.shape == ps[0].b.shape
  }

  lemma StackIndices(shape: Shape, m: nat, i: nat, idx: Index, k: nat)
    requires |idx| == |shape| >= 2 && i < m
    ensures InB([i] + idx, k) == [i] + InB(idx, k)
    ensures InA([m] + shape, [i] + idx, k) == [i] + InA(shape, idx, k)
  {
    var n := |idx|;
    assert ([i] + idx)[..n] == [i] + idx[..n - 1];
    assert ([i] + idx)[..n - 1] == [i] + idx[..n - 2];
    assert Lead([m] + shape, [i] + idx[..n - 2]) == [i] + Lead(shape, idx[..n - 2]);
  }

  lemma StackedAt(ts: seq<Tensor>, i: nat, idx: Index)
    requires i < |ts|
    ensures Stacked(ts).at([i] + idx) == ts[i].At(idx)
  {
    assert ([i] + idx)[1..] == idx;
  }

  lemma StackElement(a: seq<Tensor>, b: seq<Tensor>, rank: nat, i: nat, idx: Index)
    requires i < |a| == |b| && a[i].shape == a[0].shape && |idx| == |a[0].shape| >= 2
    ensures Element(Stacked(a), Stacked(b), rank, [i] + idx) == Element(ViewOf(a[i]), ViewOf(b[i]), rank, idx)
  {
    forall k: nat | k < rank
      ensures Terms(Stacked(a), Stacked(b), [i] + idx)(k) == Terms(ViewOf(a[i]), ViewOf(b[i]), idx)(k)
    {
      StackIndices(a[0].shape, |a|, i, idx, k);
      StackedAt(a, i, InA(a[0].shape, idx, k));
      StackedAt(b, i, InB(idx, k));
    }
    SameElement(Stacked(a), Stacked(b), [i] + idx, ViewOf(a[i]), ViewOf(b[i]), idx, rank);
  }

  lemma StackIs(ts: seq<Tensor>)
    requires Stack(ts).Ok?
    ensures ts != [] && Stack(ts) == Ok(Store(Stacked(ts)))
    ensures forall i :: 0 <= i < |ts| ==> ts[i].shape == ts[0].shape
  {
  }

  lemma StackIsAlike(ps: seq<Pair>)
    requires StackPairs(ps).Ok? && forall i :: 0 <= i < |ps| ==> ps[i].Valid()
    ensures Alike(ps) && StackPairs(ps) == Ok(Pair(Store(Stacked(As(ps))), Store(Stacked(Bs(ps)))))
  {
    StackIs(As(ps));
    StackIs(Bs(ps));
    forall i | 0 <= i < |ps|
      ensures ps[i].a.shape == ps[0].a.shape && ps[i].b.shape == ps[0].b.shape
    {
      assert As(ps)[i].shape == As(ps)[0].shape && Bs(ps)[i].shape == Bs(ps)[0].shape;
    }
  }

  lemma AlikeDenses(ps: seq<Pair>)
    requires Alike(ps)
    ensures Stack(Denses(ps)) == Ok(Store(Stacked(Denses(ps))))
  {
    StackOfSame(Denses(ps), ps[0].Shape());
  }

  lemma StackOfSame(ts: seq<Tensor>, shape: Shape)
    requires ts != [] && forall i :: 0 <= i < |ts| ==> ts[i].shape == shape
    ensures Stack(ts) == Ok(Store(Stacked(ts)))
  {
  }

  lemma DenseOfStack(ps: seq<Pair>, idx: Index)
    requires Alike(ps) && InRange([|ps|] + ps[0].Shape(), idx)
    ensures Stacked(Denses(ps)).at(idx) == Element(Stacked(As(ps)), Stacked(Bs(ps)), ps[0].Rank(), idx)
  {
    var i, rest := idx[0], idx[1..];
    assert idx == [i] + rest;
    TailInRange(|ps|, ps[0].Shape(), idx);
    StackedAt(Denses(ps), i, rest);
    DenseAt(ps[i], rest);
    StackElement(As(ps), Bs(ps), ps[0].Rank(), i, rest);
  }

  /** A stack of pairs stands for the stack of what they stand for. */
  lemma StackCommutes(ps: seq<Pair>)
    requires StackPairs(ps).Ok? && forall i :: 0 <= i < |ps| ==> ps[i].Valid()
    ensures StackPairs(ps).value.Valid()
    ensures Stack(Denses(ps)) == Ok(StackPairs(ps).value.Dense())
  {
    StackIsAlike(ps);
    AlikeDenses(ps);
    var v := Stacked(Denses(ps));
    forall idx | InRange(v.shape, idx)
      ensures v.at(idx) == Element(Stacked(As(ps)), Stacked(Bs(ps)), ps[0].Rank(), idx)
    {
      DenseOfStack(ps, idx);
    }
    StackMultiplies(ps);
    PairStandsFor(Stacked(As(ps)), Stacked(Bs(ps)), ps[0].Rank(), v);
  }

  lemma TailInRange(m: nat, shape: Shape, idx: Index)
    requires InRange([m] + shape, idx)
    ensures idx[0] < m && InRange(shape, idx[1..])
  {
    assert ([m] + shape)[1..] == shape;
    assert forall i :: 0 <= i < |shape| ==> idx[1..][i] == idx[i + 1] < ([m] + shape)[i + 1];
  }

  lemma StackMultiplies(ps: seq<Pair>)
    requires Alike(ps)
    ensures Multiplies(Stacked(As(ps)).shape, Stacked(Bs(ps)).shape, ps[0].Rank(), [|ps|] + ps[0].Shape())
  {
    AddAxis(ps[0].a.shape, ps[0].b.shape, ps[0].Rank(), ps[0].Shape(), |ps|);
  }

  lemma AddAxis(a: Shape, b: Shape, rank: nat, shape: Shape, m: nat)
    requires Multiplies(a, b, rank, shape)
    ensures Multiplies([m] + a, [m] + b, rank, [m] + shape)
  {
  }

  // ---------------------------------------------------------------- cat

  /** The number of rows in all. */
  function Height(ts: seq<Tensor>): nat {
    if ts == [] then 0 else (if ts[0].shape == [] then 0 else ts[0].shape[0]) + Height(ts[1..])
  }

  /** Row `idx[0]` of the tensors one under another. */
  function UnderAt(ts: seq<Tensor>, idx: Index): real {
    if ts == [] || idx == [] || ts[0].shape == [] then 0.0
    else if idx[0] < ts[0].shape[0] then ts[0].At(idx)
    else UnderAt(ts[1..], [idx[0] - ts[0].shape[0]] + idx[1..])
  }

  /** torch.cat along the first axis; all other lengths must agree. */
  function Cat(ts: seq<Tensor>): (r: Result<Tensor>)
    ensures r.Ok? ==> r.value.Valid()
  {
    if ts == [] || exists i :: 0 <= i < |ts| && ts[i].shape == [] then Err(BadArgument)
    else if exists i :: 0 <= i < |ts| && ts[i].shape[1..] != ts[0].shape[1..] then Err(BadArgument)
    else Ok(Store(Under(ts)))
  }

  function Under(ts: seq<Tensor>): View
    requires ts != [] && ts[0].shape != []
  {
    View([Height(ts)] + ts[0].shape[1..], idx => UnderAt(ts, idx))
  }

  /** torch.cat of pairs: above two dimensions of both factors, else of B where all have the same A. */
  function CatPairs(ps: seq<Pair>): (r: Result<Pair>)
    requires forall i :: 0 <= i < |ps| ==> ps[i].WellMade()
  {
    if ps == [] then Err(BadArgument)
    else if |ps[0].b.shape| > 2 then Join(Cat(As(ps)), Cat(Bs(ps)))
    else if forall i :: 0 <= i < |ps| ==> ps[i].a == ps[0].a then
      assert ps[0].WellMade();
      Join(Ok(ps[0].a), Cat(Bs(ps)))
    else Err(Unsupported)
  }

  /** The rows of `b` one under another, as a view. */
  function Rows(b: seq<Tensor>): View {
    View([], idx => UnderAt(b, idx))
  }

  lemma FirstRows(a: View, b: seq<Tensor>, rank: nat, row: nat, c: nat)
    requires |a.shape| == 2 && b != [] && b[0].shape != [] && row < b[0].shape[0]
    ensures Element(a, Rows(b), rank, [row, c]) == Element(a, ViewOf(b[0]), rank, [row, c])
  {
    forall k: nat | k < rank
      ensures Terms(a, Rows(b), [row, c])(k) == Terms(a, ViewOf(b[0]), [row, c])(k)
    {
      assert InB([row, c], k) == [row, k];
    }
    SameElement(a, Rows(b), [row, c], a, ViewOf(b[0]), [row, c], rank);
  }

  lemma LaterRows(a: View, b: seq<Tensor>, rank: nat, row: nat, c: nat)
    requires |a.shape| == 2 && b != [] && b[0].shape != [] && row >= b[0].shape[0]
    ensures Element(a, Rows(b), rank, [row, c]) == Element(a, Rows(b[1..]), rank, [row - b[0].shape[0], c])
  {
    var later := row - b[0].shape[0];
    forall k: nat | k < rank
      ensures Terms(a, Rows(b), [row, c])(k) == Terms(a, Rows(b[1..]), [later, c])(k)
    {
      assert InB([row, c], k) == [row, k] && InB([later, c], k) == [later, k];
      assert [later] + [row, k][1..] == [later, k];
      assert InA(a.shape, [row, c], k) == [k, c] == InA(a.shape, [later, c], k);
    }
    SameElement(a, Rows(b), [row, c], a, Rows(b[1..]), [later, c], rank);
  }

  /** Column `c` of the rows of `d` is that of the products of `b` with `a`. */
  ghost predicate ProductsAt(a: View, b: seq<Tensor>, d: seq<Tensor>, rank: nat, c: nat) {
    && |b| == |d|
    && (forall i :: 0 <= i < |b| ==> b[i].shape != [] && d[i].shape != [] && b[i].shape[0] == d[i].shape[0])
    && forall i, r: nat {:trigger d[i].At([r, c])} :: 0 <= i < |b| && r < b[i].shape[0] ==>
         d[i].At([r, c]) == Element(a, ViewOf(b[i]), rank, [r, c])
  }

  /** Matrices with one A, one under another: a row comes from the B that holds it. */
  lemma {:induction false} UnderElement(a: View, b: seq<Tensor>, d: seq<Tensor>, rank: nat, row: nat, c: nat)
    requires |a.shape| == 2 && row < Height(b) && ProductsAt(a, b, d, rank, c)
    ensures UnderAt(d, [row, c]) == Element(a, Rows(b), rank, [row, c])
  {
    if row < b[0].shape[0] {
      FirstRows(a, b, rank, row, c);
      assert d[0].At([row, c]) == Element(a, ViewOf(b[0]), rank, [row, c]);
    } else {
      var later := row - b[0].shape[0];
      LaterRows(a, b, rank, row, c);
      assert ProductsAt(a, b[1..], d[1..], rank, c);
      UnderElement(a, b[1..], d[1..], rank, later, c);
      assert [later] + [row, c][1..] == [later, c];
    }
  }

  lemma {:induction false} SameHeight(b: seq<Tensor>, d: seq<Tensor>)
    requires |b| == |d|
    requires forall i :: 0 <= i < |b| ==> b[i].shape != [] && d[i].shape != [] && b[i].shape[0] == d[i].shape[0]
    ensures Height(b) == Height(d)
  {
    if b != [] {
      SameHeight(b[1..], d[1..]);
    }
  }

  /** Matrices with the same A. */
  ghost predicate ShareA(ps: seq<Pair>) {
    && ps != []
    && forall i :: 0 <= i < |ps| ==>
         ps[i].Valid() && |ps[i].b.shape| == 2 && ps[i].a == ps[0].a
  }

  lemma DensesAreProducts(ps: seq<Pair>, c: nat)
    requires ShareA(ps) && c < ps[0].Columns()
    ensures ProductsAt(ViewOf(ps[0].a), Bs(ps), Denses(ps), ps[0].Rank(), c)
  {
    forall i, r: nat {:trigger Denses(ps)[i].At([r, c])} | 0 <= i < |ps| && r < ps[i].b.shape[0]
      ensures Denses(ps)[i].At([r, c]) == Element(ViewOf(ps[0].a), ViewOf(Bs(ps)[i]), ps[0].Rank(), [r, c])
    {
      DenseAt(ps[i], [r, c]);
    }
  }

  lemma CatIs(ts: seq<Tensor>, h: nat, w: nat)
    requires ts != [] && ts[0].shape == [h, w]
    requires forall i :: 0 <= i < |ts| ==> |ts[i].shape| == 2 && ts[i].shape[1] == w
    ensures Cat(ts) == Ok(Store(Under(ts))) && Under(ts).shape == [Height(ts), w]
  {
    assert forall i :: 0 <= i < |ts| ==> ts[i].shape[1..] == [w];
  }

  lemma CatElement(ps: seq<Pair>, row: nat, c: nat)
    requires ShareA(ps) && row < Height(Bs(ps)) && c < ps[0].Columns()
    ensures UnderAt(Denses(ps), [row, c]) == Element(ViewOf(ps[0].a), Under(Bs(ps)), ps[0].Rank(), [row, c])
  {
    var a, b, rank := ViewOf(ps[0].a), Bs(ps), ps[0].Rank();
    DensesAreProducts(ps, c);
    UnderElement(a, b, Denses(ps), rank, row, c);
    SameElement(a, Under(b), [row, c], a, Rows(b), [row, c], rank);
  }

  /** The shapes of the two sides of CatCommutes. */
  lemma CatShapes(ps: seq<Pair>)
    requires ShareA(ps)
    ensures var b, d := Bs(ps), Denses(ps);
            && Cat(b) == Ok(Store(Under(b))) && Under(b).shape == [Height(b), ps[0].Rank()]
            && Cat(d) == Ok(Store(Under(d))) && Under(d).shape == [Height(b), ps[0].Columns()]
  {
    var b, d := Bs(ps), Denses(ps);
    SameHeight(b, d);
    CatIs(b, b[0].shape[0], ps[0].Rank());
    CatIs(d, d[0].shape[0], ps[0].Columns());
  }

  /** Matrices with one A, one under another, stand for what they stand for, one under another. */
  lemma CatCommutes(ps: seq<Pair>)
    requires ShareA(ps)
    ensures var r := CatPairs(ps);
            r.Ok? && r.value.Valid() && Cat(Denses(ps)) == Ok(r.value.Dense())
  {
    var a, b, d := ViewOf(ps[0].a), Bs(ps), Denses(ps);
    CatShapes(ps);
    forall idx | InRange(Under(d).shape, idx)
      ensures Under(d).at(idx) == Element(a, Under(b), ps[0].Rank(), idx)
    {
      assert idx == [idx[0], idx[1]];
      CatElement(ps, idx[0], idx[1]);
    }
    PairStandsFor(a, Under(b), ps[0].Rank(), Under(d));
    StoreOfView(ps[0].a);
  }

  /** Of matrices, cat takes exactly those with one A. */
  lemma CatAccepts(ps: seq<Pair>)
    requires ps != [] && forall i :: 0 <= i < |ps| ==> ps[i].WellMade() && ps[i].Valid() && |ps[i].b.shape| == 2
    ensures CatPairs(ps).Ok? <==> forall i :: 0 <= i < |ps| ==> ps[i].a == ps[0].a
  {
    if forall i :: 0 <= i < |ps| ==> ps[i].a == ps[0].a {
      CatCommutes(ps);
    }
  }

  /** Row `row` of matrix `i` comes after all rows of the matrices before it. */
  lemma {:induction false} UnderMeaning(ts: seq<Tensor>, i: nat, row: nat, c: nat)
    requires i < |ts| && forall j :: 0 <= j < |ts| ==> ts[j].shape != []
    requires row < ts[i].shape[0]
    ensures UnderAt(ts, [Height(ts[..i]) + row, c]) == ts[i].At([row, c])
  {
    if i > 0 {
      assert ts[..i][1..] == ts[1..][..i - 1];
      UnderMeaning(ts[1..], i - 1, row, c);
      var at := [Height(ts[..i]) + row, c];
      assert [at[0] - ts[0].shape[0]] + at[1..] == [Height(ts[1..][..i - 1]) + row, c];
    }
  }

  lemma JoinsStacks(ps: seq<Pair>)
    requires ps != [] && ps[0].WellMade() && Stack(As(ps)).Ok? && Stack(Bs(ps)).Ok?
    ensures StackPairs(ps).Ok?
  {
    var n := |ps[0].a.shape|;
    var a, b := Stack(As(ps)).value.shape, Stack(Bs(ps)).value.shape;
    assert As(ps)[0] == ps[0].a && Bs(ps)[0] == ps[0].b;
    assert a == [|ps|] + ps[0].a.shape && b == [|ps|] + ps[0].b.shape;
    assert a[n - 1] == ps[0].a.shape[n - 2] && b[n] == ps[0].b.shape[n - 1];
  }

  ghost predicate SameShapes(ts: seq<Tensor>) {
    forall i, j :: 0 <= i < |ts| && 0 <= j < |ts| ==> ts[i].shape == ts[j].shape
  }

  /** Of pairs, stack takes those whose factors have the same shapes, the A's and the B's. */
  lemma StackAccepts(ps: seq<Pair>)
    requires ps != [] && ps[0].WellMade()
    ensures StackPairs(ps).Ok? <==> SameShapes(As(ps)) && SameShapes(Bs(ps))
  {
    StackTakes(As(ps));
    StackTakes(Bs(ps));
    if Stack(As(ps)).Ok? && Stack(Bs(ps)).Ok? {
      JoinsStacks(ps);
    }
  }
}
