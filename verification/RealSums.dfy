/** Finite sums of reals, and the halving reduction the matrix-vector kernels end with. */
module RealSums {

  /** f(lo) + .. + f(lo + n - 1) */
  ghost function Sum(f: int -> real, lo: int, n: nat): real {
    if n == 0 then 0.0 else Sum(f, lo, n - 1) + f(lo + n - 1)
  }

  lemma {:induction false} SumSame(f: int -> real, g: int -> real, lo: int, lo': int, n: nat)
    requires forall i :: lo <= i < lo + n ==> f(i) == g(i - lo + lo')
    ensures Sum(f, lo, n) == Sum(g, lo', n)
  {
    if n > 0 {
      SumSame(f, g, lo, lo', n - 1);
      assert f(lo + n - 1) == g(lo + n - 1 - lo + lo');
    }
  }

  lemma {:induction false} SumSplit(f: int -> real, lo: int, n: nat, m: nat)
    ensures Sum(f, lo, n + m) == Sum(f, lo, n) + Sum(f, lo + n, m)
  {
    if m > 0 {
      SumSplit(f, lo, n, m - 1);
    }
  }

  lemma {:induction false} SumAdd(f: int -> real, g: int -> real, h: int -> real, lo: int, n: nat)
    requires forall i :: lo <= i < lo + n ==> h(i) == f(i) + g(i)
    ensures Sum(h, lo, n) == Sum(f, lo, n) + Sum(g, lo, n)
  {
    if n > 0 {
      SumAdd(f, g, h, lo, n - 1);
    }
  }

  lemma {:induction false} SumZero(f: int -> real, lo: int, n: nat)
    requires forall i :: lo <= i < lo + n ==> f(i) == 0.0
    ensures Sum(f, lo, n) == 0.0
  {
    if n > 0 {
      SumZero(f, lo, n - 1);
    }
  }

  /** `g` adds up the two halves of a stretch of `f`. */
  lemma HalvesSum(f: int -> real, g: int -> real, h: nat, a: int, b: int)
    requires forall i :: a <= i < a + h ==> g(i) == f(i - a + b) + f(i - a + (b + h))
    ensures Sum(g, a, h) == Sum(f, b, h + h)
  {
    var low, high := i => f(i - a + b), i => f(i - a + (b + h));
    SumAdd(low, high, g, a, h);
    SumSame(low, f, a, b, h);
    SumSame(high, f, a, b + h, h);
    SumSplit(f, b, h, h);
  }

  /** The same with `g` counted from 0. */
  lemma HalvesFromZero(f: int -> real, g: int -> real, h: nat, b: int)
    requires forall i :: 0 <= i < h ==> g(i) == f(b + i) + f(b + h + i)
    ensures Sum(g, 0, h) == Sum(f, b, h + h)
  {
    HalvesSum(f, g, h, 0, b);
  }

  ghost function Row(f: (int, int) -> real, i: int): int -> real { j => f(i, j) }

  ghost function Column(f: (int, int) -> real, j: int): int -> real { i => f(i, j) }

  ghost function RowSums(f: (int, int) -> real, m: nat): int -> real { i => Sum(Row(f, i), 0, m) }

  ghost function ColumnSums(f: (int, int) -> real, n: nat): int -> real { j => Sum(Column(f, j), 0, n) }

  /** The order of a double sum does not matter. */
  lemma {:induction false} SumSwap(f: (int, int) -> real, n: nat, m: nat)
    ensures Sum(RowSums(f, m), 0, n) == Sum(ColumnSums(f, n), 0, m)
  {
    if n == 0 {
      SumZero(ColumnSums(f, 0), 0, m);
    } else {
      SumSwap(f, n - 1, m);
      SumAdd(ColumnSums(f, n - 1), Row(f, n - 1), ColumnSums(f, n), 0, m);
    }
  }

  // ---------------------------------------------------------------- reduction

  ghost function Total(s: seq<real>): real {
    if s == [] then 0.0 else Total(s[..|s| - 1]) + s[|s| - 1]
  }

  ghost predicate PowerOfTwo(n: nat) {
    n == 1 || (n > 1 && n % 2 == 0 && PowerOfTwo(n / 2))
  }

  lemma {:induction false} TotalAppend(a: seq<real>, b: seq<real>)
    ensures Total(a + b) == Total(a) + Total(b)
  {
    if b == [] {
      assert a + b == a;
    } else {
      assert (a + b)[..|a + b| - 1] == a + b[..|b| - 1];
      TotalAppend(a, b[..|b| - 1]);
    }
  }

  lemma {:induction false} TotalAdd(a: seq<real>, b: seq<real>, c: seq<real>)
    requires |a| == |b| == |c| && forall i :: 0 <= i < |a| ==> c[i] == a[i] + b[i]
    ensures Total(c) == Total(a) + Total(b)
  {
    if a != [] {
      TotalAdd(a[..|a| - 1], b[..|b| - 1], c[..|c| - 1]);
    }
  }

  lemma {:induction false} TotalIsSum(s: seq<real>, f: int -> real)
    requires forall i :: 0 <= i < |s| ==> s[i] == f(i)
    ensures Total(s) == Sum(f, 0, |s|)
  {
    if s != [] {
      TotalIsSum(s[..|s| - 1], f);
    }
  }

  /** One step of the reduction, for all work-items at once: the upper half is added to the lower one. */
  method ReduceStep(tmp: array<real>, s: nat)
    requires 2 * s <= tmp.Length
    modifies tmp
    ensures Total(tmp[..s]) == Total(old(tmp[..2 * s]))
  {
    ghost var low, high := tmp[..s], tmp[s..2 * s];
    assert tmp[..2 * s] == low + high;
    TotalAppend(low, high);
    forall tid | 0 <= tid < s {
      tmp[tid] := tmp[tid] + tmp[tid + s];
    }
    TotalAdd(low, high, tmp[..s]);
  }

  /** Halves the number of partial sums until one is left. */
  method Reduce(tmp: array<real>)
    requires PowerOfTwo(tmp.Length)
    modifies tmp
    ensures tmp[0] == Total(old(tmp[..]))
  {
    var s := tmp.Length / 2;
    ghost var width := tmp.Length;
    assert tmp[..width] == tmp[..];
    while s > 0
      invariant PowerOfTwo(width) && width <= tmp.Length && s == width / 2
      invariant Total(tmp[..width]) == Total(old(tmp[..]))
    {
      ReduceStep(tmp, s);
      width := s;
      s := s / 2;
    }
    assert tmp[..1] == [tmp[0]] && [tmp[0]][..0] == [];
  }
}
