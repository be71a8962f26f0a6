/** How far the end of a token window repeats itself: the definition that sample_dry computes in linear time. */
module SuffixRepeats {
  import opened Numbers
  import opened TokenSearch

  /** The token `x` places before the last one. */
  function FromEnd(w: seq<Token>, x: nat): Token
    requires x < |w|
  {
    w[|w| - 1 - x]
  }

  /** The last `n` tokens also end the window with its last `k` tokens dropped. */
  ghost predicate Repeats(w: seq<Token>, k: nat, n: nat) {
    k + n <= |w| && forall j :: 0 <= j < n ==> FromEnd(w, j) == FromEnd(w, k + j)
  }

  /** The longest such `n`, found by comparing tokens from the `n`-th on. */
  function RepeatFrom(w: seq<Token>, k: nat, n: nat): nat
    decreases |w| - n
  {
    if k + n < |w| && FromEnd(w, n) == FromEnd(w, k + n) then RepeatFrom(w, k, n + 1) else n
  }

  function RepeatLength(w: seq<Token>, k: nat): nat {
    RepeatFrom(w, k, 0)
  }

  lemma {:induction false} RepeatFromIsLongest(w: seq<Token>, k: nat, n: nat, m: nat)
    requires Repeats(w, k, n)
    ensures n <= RepeatFrom(w, k, n) && Repeats(w, k, RepeatFrom(w, k, n))
    ensures Repeats(w, k, m) ==> m <= RepeatFrom(w, k, n)
    decreases |w| - n
  {
    if k + n < |w| && FromEnd(w, n) == FromEnd(w, k + n) {
      RepeatFromIsLongest(w, k, n + 1, m);
    }
  }

  /** `RepeatLength` is the longest repeat, and every shorter length repeats too. */
  lemma RepeatLengthIsLongest(w: seq<Token>, k: nat, n: nat)
    requires k <= |w|
    ensures n <= RepeatLength(w, k) <==> Repeats(w, k, n)
  {
    RepeatFromIsLongest(w, k, 0, n);
  }

  /** A scan that repeats up to `n` and cannot go on has found the length. */
  lemma RepeatStops(w: seq<Token>, k: nat, n: nat)
    requires Repeats(w, k, n) && (k + n == |w| || FromEnd(w, n) != FromEnd(w, k + n))
    ensures RepeatLength(w, k) == n
  {
    RepeatLengthIsLongest(w, k, n);
    RepeatLengthIsLongest(w, k, n + 1);
  }

  /** In terms of slices. */
  lemma RepeatsAsSlices(w: seq<Token>, k: nat, n: nat)
    requires k + n <= |w|
    ensures Repeats(w, k, n) <==> w[|w| - n..] == w[|w| - k - n..|w| - k]
  {
    var a, b := w[|w| - n..], w[|w| - k - n..|w| - k];
    if a == b {
      forall j | 0 <= j < n ensures FromEnd(w, j) == FromEnd(w, k + j) {
        assert a[n - 1 - j] == b[n - 1 - j];
      }
    }
    if Repeats(w, k, n) {
      forall i | 0 <= i < n ensures a[i] == b[i] {
        assert FromEnd(w, n - 1 - i) == FromEnd(w, k + (n - 1 - i));
      }
    }
  }

  // ---------------------------------------------------------------- inside a box

  /** The tokens at `lt ..= rt` from the end repeat those at `0 ..= rt - lt`. */
  ghost predicate Box(w: seq<Token>, lt: nat, rt: nat) {
    rt < |w| && forall x :: lt <= x <= rt ==> FromEnd(w, x) == FromEnd(w, x - lt)
  }

  /** Inside a box, what repeats at the pair index `k - lt` repeats at `k`, up to the right edge. */
  lemma BoxCopies(w: seq<Token>, lt: nat, rt: nat, k: nat, n: nat)
    requires Box(w, lt, rt) && lt <= k <= rt && n <= rt - k + 1
    ensures Repeats(w, k - lt, n) <==> Repeats(w, k, n)
  {
    if Repeats(w, k - lt, n) {
      forall j | 0 <= j < n ensures FromEnd(w, j) == FromEnd(w, k + j) {
        assert FromEnd(w, k + j) == FromEnd(w, k + j - lt) == FromEnd(w, k - lt + j);
      }
    }
    if Repeats(w, k, n) {
      forall j | 0 <= j < n ensures FromEnd(w, j) == FromEnd(w, k - lt + j) {
        assert FromEnd(w, k + j) == FromEnd(w, k + j - lt) == FromEnd(w, k - lt + j);
      }
    }
  }

  /** A capped entry below the rest of the box is the capped answer at `k`, though the entry itself was capped. */
  lemma CappedInsideBox(w: seq<Token>, lt: nat, rt: nat, k: nat, limit: nat)
    requires Box(w, lt, rt) && lt <= k <= rt
    requires Min(RepeatLength(w, k - lt), limit) < rt - k + 1
    ensures Min(RepeatLength(w, k), limit) == Min(RepeatLength(w, k - lt), limit)
  {
    var z := RepeatLength(w, k - lt);
    var n := Min(z, limit);
    BoxCopies(w, lt, rt, k, n);
    RepeatLengthIsLongest(w, k - lt, n);
    RepeatLengthIsLongest(w, k, n);
    if z < limit {
      BoxCopies(w, lt, rt, k, z + 1);
      RepeatLengthIsLongest(w, k - lt, z + 1);
      RepeatLengthIsLongest(w, k, z + 1);
    }
  }

  lemma RepeatsToBoxEdge(w: seq<Token>, lt: nat, rt: nat, k: nat, limit: nat)
    requires Box(w, lt, rt) && lt <= k <= rt
    requires Min(RepeatLength(w, k - lt), limit) >= rt - k + 1
    ensures Repeats(w, k, rt + 1 - k)
  {
    RepeatLengthIsLongest(w, k - lt, rt + 1 - k);
    BoxCopies(w, lt, rt, k, rt + 1 - k);
  }

  lemma RepeatIsBox(w: seq<Token>, k: nat, n: nat)
    requires Repeats(w, k, n) && n > 0
    ensures Box(w, k, k + n - 1)
  {
    forall x | k <= x <= k + n - 1 ensures FromEnd(w, x) == FromEnd(w, x - k) {
      assert FromEnd(w, x - k) == FromEnd(w, k + (x - k));
    }
  }
}
