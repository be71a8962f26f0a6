/** The sequence searches of model_adapter.cpp: prefix test, first occurrence, longest common contiguous run. */
module TokenSearch {

  type Token = int

  /** `b` stands in `a` at position `i`. */
  predicate OccursAt(a: seq<Token>, b: seq<Token>, i: int) {
    0 <= i && i + |b| <= |a| && a[i..i + |b|] == b
  }

  // ---------------------------------------------------------------- prefix test

  method ArrStartWith(target: seq<Token>, search: seq<Token>) returns (r: bool)
    ensures r <==> search <= target
  {
    var ss := |search|;
    if |target| < ss {
      return false;
    }
    for i := 0 to ss
      invariant target[..i] == search[..i]
    {
      if target[i] != search[i] {
        return false;
      }
    }
    return true;
  }

  // ---------------------------------------------------------------- first occurrence

  /** The least position >= `i` (and inside `a`) where `b` occurs, or -1. */
  function FindFrom(a: seq<Token>, b: seq<Token>, i: nat): (r: int)
    ensures r == -1 || i <= r < |a|
    decreases |a| - i
  {
    if i >= |a| then -1
    else if OccursAt(a, b, i) then i
    else FindFrom(a, b, i + 1)
  }

  /** It is an occurrence, no earlier one exists, and -1 means there is none. */
  lemma {:induction false} FindFromIsFirst(a: seq<Token>, b: seq<Token>, i: nat, k: nat)
    ensures var r := FindFrom(a, b, i);
            && (r != -1 ==> OccursAt(a, b, r))
            && (i <= k < |a| && (r == -1 || k < r) ==> !OccursAt(a, b, k))
    decreases |a| - i
  {
    if i < |a| && !OccursAt(a, b, i) {
      FindFromIsFirst(a, b, i + 1, k);
    }
  }

  /** Where the first occurrence of `search` starts. An empty `search` is found in every nonempty target only. */
  method ArrFindIndexOf(target: seq<Token>, search: seq<Token>) returns (r: int)
    ensures r == FindFrom(target, search, 0)
  {
    var ss, tas := |search|, |target|;
    if tas < ss {
      FindFromIsFirst(target, search, 0, 0);
      return -1;
    }
    for i := 0 to tas
      invariant FindFrom(target, search, 0) == FindFrom(target, search, i)
    {
      var stands := StandsAt(target, search, i);
      if stands {
        return i;
      }
    }
    return -1;
  }

  /** The inner loop: compares token by token, up to the first that differs or is missing. */
  method StandsAt(target: seq<Token>, search: seq<Token>, i: nat) returns (stands: bool)
    ensures stands <==> OccursAt(target, search, i)
  {
    for srch := 0 to |search|
      invariant i + srch <= |target| || srch == 0
      invariant forall k :: 0 <= k < srch ==> target[i + k] == search[k]
    {
      if i + srch >= |target| || target[i + srch] != search[srch] {
        DiffersAt(target, search, i, srch);
        return false;
      }
    }
    return i + |search| <= |target|;
  }

  lemma DiffersAt(a: seq<Token>, b: seq<Token>, i: nat, k: nat)
    requires k < |b| && (i + k >= |a| || a[i + k] != b[k])
    ensures !OccursAt(a, b, i)
  {
    if i + |b| <= |a| {
      assert a[i..i + |b|][k] == a[i + k];
    }
  }

  // ---------------------------------------------------------------- longest common run

  /** Length of the longest common suffix of `x[..i]` and `y[..j]`: what one cell of the table means. */
  function CommonSuffix(x: seq<Token>, i: nat, y: seq<Token>, j: nat): (n: nat)
    requires i <= |x| && j <= |y|
    ensures n <= i && n <= j
  {
    if i == 0 || j == 0 || x[i - 1] != y[j - 1] then 0 else CommonSuffix(x, i - 1, y, j - 1) + 1
  }

  /** The greatest cell among the first `j` columns of row `i`. */
  function RowMax(x: seq<Token>, i: nat, y: seq<Token>, j: nat): (m: nat)
    requires i <= |x| && j <= |y|
    ensures m <= i
  {
    if j == 0 then 0
    else
      var m := RowMax(x, i, y, j - 1);
      var c := CommonSuffix(x, i, y, j);
      if c > m then c else m
  }

  /** The better of `best` and the longest run that ends at row `i` in one of the first `j` columns. */
  function BetterRun(x: seq<Token>, i: nat, y: seq<Token>, j: nat, best: seq<Token>): seq<Token>
    requires i <= |x| && j <= |y|
  {
    var m := RowMax(x, i, y, j);
    if m > |best| then x[i - m..i] else best
  }

  /** A longest common run of `x[..i]` and `y`; of several, the one that ends first in `x`. */
  function LongestRun(x: seq<Token>, i: nat, y: seq<Token>): (r: seq<Token>)
    requires i <= |x|
  {
    if i == 0 then [] else BetterRun(x, i, y, |y|, LongestRun(x, i - 1, y))
  }

  ghost predicate CommonRun(x: seq<Token>, y: seq<Token>, r: seq<Token>) {
    (exists i :: OccursAt(x, r, i)) && (exists j :: OccursAt(y, r, j))
  }

  /** A cell is the length of a common suffix ... */
  lemma {:induction false} CellIsSuffix(x: seq<Token>, i: nat, y: seq<Token>, j: nat)
    requires i <= |x| && j <= |y|
    ensures var n := CommonSuffix(x, i, y, j); x[i - n..i] == y[j - n..j]
  {
    var n := CommonSuffix(x, i, y, j);
    if n > 0 {
      CellIsSuffix(x, i - 1, y, j - 1);
      assert x[i - n..i] == x[i - n..i - 1] + [x[i - 1]];
      assert y[j - n..j] == y[j - n..j - 1] + [y[j - 1]];
    }
  }

  /** ... and no common suffix is longer. */
  lemma {:induction false} CellBoundsSuffixes(x: seq<Token>, i: nat, y: seq<Token>, j: nat, n: nat)
    requires n <= i <= |x| && n <= j <= |y| && x[i - n..i] == y[j - n..j]
    ensures n <= CommonSuffix(x, i, y, j)
  {
    if n > 0 {
      assert x[i - n..i][n - 1] == x[i - 1] && y[j - n..j][n - 1] == y[j - 1];
      assert x[i - n..i - 1] == x[i - n..i][..n - 1];
      assert y[j - n..j - 1] == y[j - n..j][..n - 1];
      CellBoundsSuffixes(x, i - 1, y, j - 1, n - 1);
    }
  }

  lemma {:induction false} RowMaxBounds(x: seq<Token>, i: nat, y: seq<Token>, j: nat, k: nat)
    requires i <= |x| && k <= j <= |y|
    ensures CommonSuffix(x, i, y, k) <= RowMax(x, i, y, j)
  {
    if 0 < j && k < j {
      RowMaxBounds(x, i, y, j - 1, k);
    }
  }

  lemma {:induction false} RowMaxReached(x: seq<Token>, i: nat, y: seq<Token>, j: nat) returns (k: nat)
    requires i <= |x| && j <= |y|
    ensures k <= j && CommonSuffix(x, i, y, k) == RowMax(x, i, y, j)
  {
    if j == 0 {
      k := 0;
    } else {
      k := RowMaxReached(x, i, y, j - 1);
      if RowMax(x, i, y, j) != RowMax(x, i, y, j - 1) {
        k := j;
      }
    }
  }

  lemma {:induction false} LongestRunIsCommon(x: seq<Token>, i: nat, y: seq<Token>)
    requires i <= |x|
    ensures CommonRun(x, y, LongestRun(x, i, y))
  {
    var r := LongestRun(x, i, y);
    if i == 0 {
      assert OccursAt(x, r, 0) && OccursAt(y, r, 0);
    } else if RowMax(x, i, y, |y|) <= |LongestRun(x, i - 1, y)| {
      LongestRunIsCommon(x, i - 1, y);
    } else {
      var j := RowMaxReached(x, i, y, |y|);
      CellIsSuffix(x, i, y, j);
      assert OccursAt(x, r, i - |r|) && OccursAt(y, r, j - |r|);
    }
  }

  lemma {:induction false} LongestRunBounds(x: seq<Token>, i: nat, y: seq<Token>, k: nat, j: nat)
    requires k <= i <= |x| && j <= |y|
    ensures CommonSuffix(x, k, y, j) <= |LongestRun(x, i, y)|
  {
    if i > 0 {
      if k < i {
        LongestRunBounds(x, i - 1, y, k, j);
      } else {
        RowMaxBounds(x, i, y, |y|, j);
      }
    }
  }

  /** The result is a run of both inputs, and no common run is longer. */
  lemma LongestRunIsLongest(x: seq<Token>, y: seq<Token>, other: seq<Token>)
    ensures CommonRun(x, y, LongestRun(x, |x|, y))
    ensures CommonRun(x, y, other) ==> |other| <= |LongestRun(x, |x|, y)|
  {
    LongestRunIsCommon(x, |x|, y);
    if CommonRun(x, y, other) {
      var i :| OccursAt(x, other, i);
      var j :| OccursAt(y, other, j);
      CellBoundsSuffixes(x, i + |other|, y, j + |other|, |other|);
      LongestRunBounds(x, |x|, y, i + |other|, j + |other|);
    }
  }

  /** Where the chosen run ends: at the first row that reaches its length. */
  lemma {:induction false} LongestRunEnd(x: seq<Token>, i: nat, y: seq<Token>) returns (e: nat)
    requires i <= |x|
    ensures var r := LongestRun(x, i, y);
            && |r| <= e <= i && r == x[e - |r|..e]
            && forall k :: 0 <= k < e ==> |LongestRun(x, k, y)| < |r|
  {
    if i == 0 {
      e := 0;
    } else if RowMax(x, i, y, |y|) <= |LongestRun(x, i - 1, y)| {
      e := LongestRunEnd(x, i - 1, y);
    } else {
      e := i;
      forall k | 0 <= k < i ensures |LongestRun(x, k, y)| <= |LongestRun(x, i - 1, y)| {
        LongestRunGrows(x, k, i - 1, y);
      }
    }
  }

  lemma {:induction false} LongestRunGrows(x: seq<Token>, k: nat, i: nat, y: seq<Token>)
    requires k <= i <= |x|
    ensures |LongestRun(x, k, y)| <= |LongestRun(x, i, y)|
  {
    if k < i {
      LongestRunGrows(x, k, i - 1, y);
    }
  }

  /** Of several longest common runs the result is the one that starts first in `x`. */
  lemma LongestRunIsFirst(x: seq<Token>, y: seq<Token>, other: seq<Token>, i: nat) returns (k: nat)
    requires CommonRun(x, y, other) && OccursAt(x, other, i) && |other| == |LongestRun(x, |x|, y)|
    ensures k <= i && OccursAt(x, LongestRun(x, |x|, y), k)
  {
    var e := LongestRunEnd(x, |x|, y);
    k := e - |other|;
    var j :| OccursAt(y, other, j);
    CellBoundsSuffixes(x, i + |other|, y, j + |other|, |other|);
    LongestRunBounds(x, i + |other|, y, i + |other|, j + |other|);
  }

  /** The dynamic program: each cell of the table is the longest common suffix of two prefixes. */
  method FillTable(x: seq<Token>, y: seq<Token>) returns (table: array2<int>)
    ensures table.Length0 == |x| + 1 && table.Length1 == |y| + 1
    ensures forall p, q :: 0 <= p <= |x| && 0 <= q <= |y| ==> table[p, q] == CommonSuffix(x, p, y, q)
  {
    var m, n := |x|, |y|;
    table := new int[m + 1, n + 1];
    for j := 0 to n + 1
      invariant forall k :: 0 <= k < j ==> table[0, k] == 0
    {
      table[0, j] := 0;
    }
    for i := 0 to m + 1
      invariant forall k :: 0 <= k <= n ==> table[0, k] == 0
      invariant forall k :: 0 <= k < i ==> table[k, 0] == 0
    {
      table[i, 0] := 0;
    }
    for i := 1 to m + 1
      invariant forall k :: 0 <= k <= m ==> table[k, 0] == 0
      invariant forall p, q :: 0 <= p < i && 0 <= q <= n ==> table[p, q] == CommonSuffix(x, p, y, q)
    {
      for j := 1 to n + 1
        invariant forall k :: 0 <= k <= m ==> table[k, 0] == 0
        invariant forall p, q :: 0 <= p < i && 0 <= q <= n ==> table[p, q] == CommonSuffix(x, p, y, q)
        invariant forall q :: 0 <= q < j ==> table[i, q] == CommonSuffix(x, i, y, q)
      {
        if x[i - 1] == y[j - 1] {
          table[i, j] := table[i - 1, j - 1] + 1;
        } else {
          table[i, j] := 0;
        }
      }
    }
  }

  /** Fills the table, then scans it for the first greatest cell. */
  method LongestCommonSubseq(x: seq<Token>, y: seq<Token>) returns (longest: seq<Token>)
    ensures longest == LongestRun(x, |x|, y)
  {
    var m, n := |x|, |y|;
    var table := FillTable(x, y);
    longest := [];
    for i := 1 to m + 1
      invariant longest == LongestRun(x, i - 1, y)
    {
      ghost var before := longest;
      for j := 1 to n + 1
        invariant longest == BetterRun(x, i, y, j - 1, before)
      {
        if table[i, j] > |longest| {
          longest := x[i - table[i, j]..i];
        }
      }
    }
  }
}
