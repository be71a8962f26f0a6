/**
 The kernels generated from dequant_template and dequant_mul_mat_vec_template: the fused product of a quantised
 row and a vector is the dot product of the vector with the dequantised row.
 */
module DequantMatVec {
  import opened RealSums

  const LOCAL_SIZE := 32

  /** `Pair(ib, iqs)` dequantises the two values at quant index `iqs` of block `ib`. */
  type Dequantizer = (int, int) -> (real, real)

  /** QUANT_K and QUANT_R of the generated kernels. */
  datatype Format = Format(qk: nat, qr: nat) {
    predicate Known() {
      (qk == 32 && (qr == 1 || qr == 2)) || (qk == 1 && qr == 1)
    }

    /** a / qk */
    function DivQk(a: nat): nat
      requires Known()
    {
      if qk == 32 then a / 32 else a
    }

    /** a % qk */
    function ModQk(a: nat): nat
      requires Known()
    {
      if qk == 32 then a % 32 else 0
    }

    function BlockIndex(base: nat, col: nat): nat
      requires Known()
    {
      DivQk(base + col)
    }

    function QuantIndex(col: nat): nat
      requires Known()
    {
      if qr == 1 then ModQk(col) else ModQk(col) / 2
    }

    function YOffset(): nat {
      if qr == 1 then 1 else 16
    }

    /** The two columns handled together when the loop stands at `col`. */
    function First(col: nat): nat
      requires Known()
    {
      col - ModQk(col) + QuantIndex(col)
    }

    function Second(col: nat): nat
      requires Known()
    {
      First(col) + YOffset()
    }

    /** The loop position that handles column `c`, halved; and whether as the first or the second of the two. */
    function Slot(c: nat): nat
      requires Known()
    {
      if qr == 1 then c / 2 else c / 32 * 16 + (if c % 32 < 16 then c % 32 else c % 32 - 16)
    }

    predicate IsFirst(c: nat)
      requires Known()
    {
      if qr == 1 then c % 2 == 0 else c % 32 < 16
    }

    /** Split layout: position `j` of block `b` pairs its columns `j` and `j + 16`. */
    lemma HalvesAt(b: nat, j: nat)
      requires Known() && qr == 2 && j < 16
      ensures First(32 * b + 2 * j) == 32 * b + j && Second(32 * b + 2 * j) == 32 * b + j + 16
      ensures Slot(32 * b + j) == 16 * b + j && IsFirst(32 * b + j)
      ensures Slot(32 * b + j + 16) == 16 * b + j && !IsFirst(32 * b + j + 16)
    {
      DivMod32(b, 2 * j);
      DivMod32(b, j);
      DivMod32(b, j + 16);
    }

    /** Every slot handles its two columns ... */
    lemma SlotHandles(s: nat)
      requires Known()
      ensures Slot(First(2 * s)) == s && IsFirst(First(2 * s))
      ensures Slot(Second(2 * s)) == s && !IsFirst(Second(2 * s))
    {
      if qr == 2 {
        HalvesAt(s / 16, s % 16);
        assert 2 * s == 32 * (s / 16) + 2 * (s % 16);
      }
    }

    /** ... and every column is one of its slot's: the kernels handle each column exactly once. */
    lemma ColumnHandled(c: nat)
      requires Known()
      ensures c == if IsFirst(c) then First(2 * Slot(c)) else Second(2 * Slot(c))
    {
      if qr == 2 {
        var b, j := c / 32, if c % 32 < 16 then c % 32 else c % 32 - 16;
        HalvesAt(b, j);
        assert 2 * Slot(c) == 32 * b + 2 * j;
      }
    }

    /** Paired layout: the columns of a slot are next to each other. */
    lemma PairAt(s: nat)
      requires Known() && qr == 1
      ensures First(2 * s) == 2 * s && Second(2 * s) == 2 * s + 1
    {
    }

    lemma SplitInRow(col: nat, b: nat, r: nat, q: nat)
      requires Known() && qr == 2 && col == 32 * b + r && r < 32 && col < 32 * q
      ensures First(col) < 32 * q && Second(col) < 32 * q
    {
      DivMod32(b, r);
      BlockBound(b, q, r);
    }

    lemma PairInRow(s: nat, n: nat)
      requires Known() && qr == 1 && s < n
      ensures First(2 * s) < 2 * n && Second(2 * s) < 2 * n
    {
      PairAt(s);
    }

    /** The two columns of a slot lie in the same row. */
    lemma InRow(s: nat, ncols: nat)
      requires Known() && ModQk(ncols) == 0 && ncols % 2 == 0 && 2 * s < ncols
      ensures First(2 * s) < ncols && Second(2 * s) < ncols
    {
      if qr == 1 {
        Halve(ncols);
        PairInRow(s, ncols / 2);
      } else {
        Split32(2 * s);
        Split32(ncols);
        SplitInRow(2 * s, 2 * s / 32, 2 * s % 32, ncols / 32);
      }
    }

    /** The slots of a row's columns are its first `ncols / 2`. */
    lemma SlotInRow(c: nat, ncols: nat)
      requires Known() && ModQk(ncols) == 0 && ncols % 2 == 0 && c < ncols
      ensures Slot(c) < ncols / 2
    {
      if qr == 2 {
        BlockBound(c / 32, ncols / 32, c % 32);
      }
    }

    /** Column `c` of the row that starts at `base`, dequantised. */
    function Weight(deq: Dequantizer, base: nat, c: nat): real
      requires Known()
    {
      var col := 2 * Slot(c);
      var v := deq(BlockIndex(base, col), QuantIndex(col));
      if IsFirst(c) then v.0 else v.1
    }
  }

  /** What the dequantizer yields at slot `s` are the weights of its two columns. */
  lemma SlotWeights(deq: Dequantizer, fmt: Format, base: nat, s: nat)
    requires fmt.Known()
    ensures var v := deq(fmt.BlockIndex(base, 2 * s), fmt.QuantIndex(2 * s));
            fmt.Weight(deq, base, fmt.First(2 * s)) == v.0 && fmt.Weight(deq, base, fmt.Second(2 * s)) == v.1
  {
    fmt.SlotHandles(s);
  }

  lemma BlockBound(b: nat, q: nat, r: nat)
    requires 32 * b + r < 32 * q
    ensures b < q && 32 * b + 32 <= 32 * q
  {
  }

  lemma Halve(n: nat)
    requires n % 2 == 0
    ensures n == 2 * (n / 2)
  {
  }

  lemma Split32(n: nat)
    ensures n == 32 * (n / 32) + n % 32
  {
  }

  lemma DivMod32(b: nat, r: nat)
    requires r < 32
    ensures (32 * b + r) / 32 == b && (32 * b + r) % 32 == r
  {
  }

  // ---------------------------------------------------------------- the plain kernel

  /** The column at which work-item `id` stands, in groups of `local`. */
  function ItemColumn(id: nat, local: nat): nat
    requires local > 0
  {
    id / local * local + id % local * 2
  }

  /** The two columns of a work-item that stands at `i` are in the block of `i`. */
  predicate InBlock(fmt: Format, i: nat)
    requires fmt.Known()
  {
    fmt.Second(i) < i - i % 32 + 32
  }

  /**
   dequant_template over a row of `n` columns whose blocks start at `offset`, with work-items in groups of `local`.
   They run in any order, and those of neighbouring groups write the same columns.
   */
  method DequantizeRow(deq: Dequantizer, fmt: Format, offset: nat, n: nat, local: nat) returns (y: array<real>)
    requires fmt.Known() && fmt.qk == 32 && n % 32 == 0 && local > 0 && n % local == 0
    requires fmt.qr == 2 || local % 2 == 0
    ensures fresh(y) && y.Length == n
    ensures forall c :: 0 <= c < n ==> y[c] == fmt.Weight(deq, 32 * offset, c)
  {
    y := new real[n];
    var rest := Items(n);
    ItemsAre(n);
    while rest != {}
      invariant rest <= Items(n)
      invariant ItemsDone(y[..], deq, fmt, offset, local, rest)
      decreases rest
    {
      SomeItem(rest);
      var id :| id in rest;
      var i := ItemColumn(id, local);
      if i < n {
        ghost var was := y[..];
        EvenColumn(id, local);
        WriteItem(deq, fmt, offset, y, i);
        OneMoreItem(was, y[..], deq, fmt, offset, local, rest, id);
      }
      rest := rest - {id};
    }
    forall c: nat | c < n
      ensures y[c] == fmt.Weight(deq, 32 * offset, c)
    {
      fmt.SlotInRow(c, n);
      var id := ItemAtSlot(fmt.Slot(c), n, local);
      assert SlotDone(y[..], deq, fmt, offset, ItemColumn(id, local) / 2);
    }
  }

  /** The numbers of `n` work-items. */
  function Items(n: nat): set<nat> {
    if n == 0 then {} else Items(n - 1) + {n - 1}
  }

  lemma {:induction false} ItemsAre(n: nat)
    ensures forall id: nat :: id in Items(n) <==> id < n
  {
    if n > 0 {
      ItemsAre(n - 1);
    }
  }

  lemma SomeItem(items: set<nat>)
    ensures items != {} ==> exists id :: id in items
  {
    if !exists id :: id in items {
      assert items == {};
    }
  }

  /** The columns of slot `s` have their values. */
  ghost predicate SlotDone(y: seq<real>, deq: Dequantizer, fmt: Format, offset: nat, s: nat)
    requires fmt.Known()
  {
    forall c: nat {:trigger fmt.Slot(c)} :: c < |y| && fmt.Slot(c) == s ==> y[c] == fmt.Weight(deq, 32 * offset, c)
  }

  /** So have those of every work-item but the ones in `rest`. */
  ghost predicate ItemsDone(y: seq<real>, deq: Dequantizer, fmt: Format, offset: nat, local: nat, rest: set<nat>)
    requires fmt.Known() && local > 0
  {
    forall id: nat {:trigger ItemColumn(id, local)} :: id < |y| && id !in rest && ItemColumn(id, local) < |y| ==>
      SlotDone(y, deq, fmt, offset, ItemColumn(id, local) / 2)
  }

  lemma OneMoreItem(was: seq<real>, now: seq<real>, deq: Dequantizer, fmt: Format, offset: nat, local: nat,
                    rest: set<nat>, id: nat)
    requires fmt.Known() && local > 0 && ItemsDone(was, deq, fmt, offset, local, rest)
    requires SlotWritten(was, now, deq, fmt, offset, ItemColumn(id, local) / 2)
    ensures ItemsDone(now, deq, fmt, offset, local, rest - {id})
  {
  }

  /** The columns of slot `s` are written, no others. */
  ghost predicate SlotWritten(was: seq<real>, now: seq<real>, deq: Dequantizer, fmt: Format, offset: nat, s: nat)
    requires fmt.Known()
  {
    && |was| == |now|
    && forall c: nat {:trigger fmt.Slot(c)} :: c < |now| ==>
         now[c] == if fmt.Slot(c) == s then fmt.Weight(deq, 32 * offset, c) else was[c]
  }

  method WriteItem(deq: Dequantizer, fmt: Format, offset: nat, y: array<real>, i: nat)
    requires fmt.Known() && fmt.qk == 32 && y.Length % 32 == 0 && i < y.Length
    requires fmt.qr == 2 || i % 2 == 0
    modifies y
    ensures SlotWritten(old(y[..]), y[..], deq, fmt, offset, i / 2)
  {
    ghost var was, s := y[..], i / 2;
    OfSlot(fmt, offset, i);
    RowIsEven(y.Length);
    fmt.InRow(s, y.Length);
    var v := deq(fmt.BlockIndex(32 * offset, i), fmt.QuantIndex(i));
    WriteTwo(y, fmt.First(i), fmt.Second(i), v.0, v.1);
    PairWritten(was, y[..], deq, fmt, offset, s, v);
  }

  method WriteTwo(y: array<real>, a: nat, b: nat, v: real, w: real)
    requires a < y.Length && b < y.Length
    modifies y
    ensures y[..] == old(y[..])[a := v][b := w]
  {
    y[a] := v;
    y[b] := w;
  }

  lemma RowIsEven(n: nat)
    requires n % 32 == 0
    ensures n % 2 == 0
  {
    var h := 16 * (n / 32);
    assert n == 2 * h;
    Twice(h);
  }

  lemma Twice(h: nat)
    ensures 2 * h % 2 == 0 && (2 * h + 1) % 2 == 1 && (2 * h + 1) / 2 == h
  {
  }

  lemma PairWritten(was: seq<real>, now: seq<real>, deq: Dequantizer, fmt: Format, offset: nat, s: nat,
                    v: (real, real))
    requires fmt.Known() && fmt.First(2 * s) < |was| && fmt.Second(2 * s) < |was|
    requires v == deq(fmt.BlockIndex(32 * offset, 2 * s), fmt.QuantIndex(2 * s))
    requires now == was[fmt.First(2 * s) := v.0][fmt.Second(2 * s) := v.1]
    ensures SlotWritten(was, now, deq, fmt, offset, s)
  {
    fmt.SlotHandles(s);
    SlotWeights(deq, fmt, 32 * offset, s);
    forall c: nat {:trigger fmt.Slot(c)} | c < |now|
      ensures now[c] == if fmt.Slot(c) == s then fmt.Weight(deq, 32 * offset, c) else was[c]
    {
      fmt.ColumnHandled(c);
    }
  }

  /** A work-item at an odd column of the split layout does what its neighbour at the even one does. */
  lemma OfSlot(fmt: Format, offset: nat, i: nat)
    requires fmt.Known() && fmt.qk == 32 && (fmt.qr == 2 || i % 2 == 0)
    ensures var e := 2 * (i / 2);
            && fmt.First(i) == fmt.First(e) && fmt.Second(i) == fmt.Second(e)
            && fmt.BlockIndex(32 * offset, i) == fmt.BlockIndex(32 * offset, e)
            && fmt.QuantIndex(i) == fmt.QuantIndex(e)
  {
    if i % 2 == 1 {
      var b, r := i / 32, i % 32;
      Split32(i);
      assert i == 2 * (i / 2) + 1;
      OddRemainder(i);
      DivMod32(b, r - 1);
      DivMod32(offset + b, r);
      DivMod32(offset + b, r - 1);
    }
  }

  lemma OddRemainder(i: nat)
    requires i % 2 == 1
    ensures i % 32 >= 1 && i % 32 / 2 == (i % 32 - 1) / 2
  {
    var h := i / 2;
    var q, k := h / 16, h % 16;
    assert i == 32 * q + (2 * k + 1);
    DivMod32(q, 2 * k + 1);
    Twice(k);
  }

  /** In groups of even size every work-item stands at an even column. */
  lemma EvenColumn(id: nat, local: nat)
    requires local > 0
    ensures local % 2 == 0 ==> ItemColumn(id, local) % 2 == 0
  {
    if local % 2 == 0 {
      assert id / local * local == 2 * (id / local * (local / 2));
    }
  }

  /** Some work-item stands at slot `s`. */
  lemma ItemAtSlot(s: nat, n: nat, local: nat) returns (id: nat)
    requires 2 * s < n && local > 0 && n % local == 0
    ensures id < n && ItemColumn(id, local) < n && ItemColumn(id, local) / 2 == s
  {
    var g, r := 2 * s / local, 2 * s % local;
    if r % 2 == 0 {
      id := InOwnGroup(s, local, g, r);
    } else {
      id := InGroupBefore(s, local, g, r);
    }
  }

  lemma InOwnGroup(s: nat, local: nat, g: nat, r: nat) returns (id: nat)
    requires local > 0 && 2 * s == g * local + r && r < local && r % 2 == 0
    ensures id <= 2 * s && ItemColumn(id, local) == 2 * s
  {
    id := g * local + r / 2;
    InGroup(g, local, r / 2);
  }

  /** Where size and number of the group are odd, an item of the group before stands here. */
  lemma InGroupBefore(s: nat, local: nat, g: nat, r: nat) returns (id: nat)
    requires local > 0 && 2 * s == g * local + r && r < local && r % 2 == 1
    ensures id <= 2 * s && ItemColumn(id, local) == 2 * s
  {
    var product := 2 * s - r;
    assert product % 2 == 1;
    OddFactors(g, local, product);
    var l := HalfOf(local, r);
    Before(g, local);
    id := (g - 1) * local + l;
    InGroup(g - 1, local, l);
  }

  lemma HalfOf(a: nat, b: nat) returns (l: nat)
    requires a % 2 == 1 && b % 2 == 1 && b < a
    ensures 2 * l == a + b && l < a
  {
    l := (a + b) / 2;
  }

  lemma Before(g: nat, local: nat)
    requires g >= 1
    ensures (g - 1) * local + local == g * local
  {
  }

  lemma OddFactors(a: nat, b: nat, product: int)
    requires product == a * b && product % 2 == 1
    ensures a % 2 == 1 && b % 2 == 1
  {
    EvenTimes(a, b);
    EvenTimes(b, a);
    assert a * b == b * a;
  }

  lemma EvenTimes(a: nat, b: nat)
    ensures a % 2 == 0 ==> a * b % 2 == 0
  {
    if a % 2 == 0 {
      var h := a / 2;
      assert a == 2 * h && a * b == 2 * (h * b);
    }
  }

  lemma InGroup(g: nat, local: nat, l: nat)
    requires l < local
    ensures ItemColumn(g * local + l, local) == g * local + 2 * l
  {
    Grouped(g * local + l, g, local, l);
  }

  lemma Grouped(id: nat, g: nat, local: nat, l: nat)
    requires id == g * local + l && l < local
    ensures id / local == g && id % local == l
  {
    assert id == id / local * local + id % local;
    Multiples(id / local + 1, g, local);
    Multiples(g + 1, id / local, local);
  }

  lemma Multiples(a: int, b: int, n: nat)
    ensures a <= b ==> a * n <= b * n
  {
  }

  /**
   Every work-item keeps to its block exactly in the split layout or with groups of even size. Otherwise the last of
   them reads past its block and writes past the row.
   */
  lemma StaysInBlocks(fmt: Format, n: nat, local: nat)
    requires fmt.Known() && fmt.qk == 32 && n > 0 && n % 32 == 0 && local > 0 && n % local == 0
    ensures (forall id: nat :: id < n && ItemColumn(id, local) < n ==> InBlock(fmt, ItemColumn(id, local)))
       <==> fmt.qr == 2 || local % 2 == 0
  {
    forall id: nat | fmt.qr == 2 || local % 2 == 0
      ensures InBlock(fmt, ItemColumn(id, local))
    {
      EvenColumn(id, local);
      KeepsToBlock(fmt, ItemColumn(id, local));
    }
    if fmt.qr == 1 && local % 2 == 1 {
      var id := LastItem(fmt, n, local);
      assert !InBlock(fmt, ItemColumn(id, local));
    }
  }

  lemma KeepsToBlock(fmt: Format, i: nat)
    requires fmt.Known() && fmt.qk == 32 && (fmt.qr == 2 || i % 2 == 0)
    ensures InBlock(fmt, i)
  {
    if fmt.qr == 1 {
      Split32(i);
      assert i % 32 != 31;
    }
  }

  lemma LastGroup(n: nat, local: nat) returns (g: nat)
    requires n > 0 && local > 0 && n % local == 0
    ensures g * local + local == n
  {
    assert n == n / local * local;
    assert n / local >= 1;
    g := n / local - 1;
    Before(n / local, local);
  }

  /** With groups of odd size, one work-item of the paired layout writes the column after the row. */
  lemma LastItem(fmt: Format, n: nat, local: nat) returns (id: nat)
    requires fmt == Format(32, 1) && n > 0 && n % 32 == 0 && local % 2 == 1 && n % local == 0
    ensures id < n && ItemColumn(id, local) == n - 1 && fmt.Second(n - 1) == n && fmt.QuantIndex(n - 1) == 31
    ensures !InBlock(fmt, n - 1)
  {
    var g := LastGroup(n, local);
    id := g * local + (local - 1) / 2;
    InGroup(g, local, (local - 1) / 2);
    Split32(n);
    assert n - 1 == 32 * (n / 32 - 1) + 31;
    DivMod32(n / 32 - 1, 31);
  }

  // ---------------------------------------------------------------- the fused kernel

  /** The dequantised row that starts at `base`. */
  ghost function Weights(deq: Dequantizer, fmt: Format, base: nat): int -> real
    requires fmt.Known()
  {
    c => if c >= 0 then fmt.Weight(deq, base, c) else 0.0
  }

  /** The terms of the dot product of `w` and `y`. */
  ghost function Terms(w: int -> real, y: seq<real>): int -> real {
    c => if 0 <= c < |y| then w(c) * y[c] else 0.0
  }

  /** The two terms that belong to slot `s`. */
  ghost function SlotTerm(f: int -> real, fmt: Format): int -> real
    requires fmt.Known()
  {
    s => if s >= 0 then f(fmt.First(2 * s)) + f(fmt.Second(2 * s)) else 0.0
  }

  /** `f` cut off after the first `n` places. */
  ghost function UpTo(f: int -> real, n: nat): int -> real {
    s => if 0 <= s < n then f(s) else 0.0
  }

  /** The share of work-item `tid`: its `i`-th slot is `tid + 32 * i`. */
  ghost function Share(f: int -> real): (int, int) -> real {
    (tid, i) => f(32 * i + tid)
  }

  /** One round of all work-items covers 32 slots in a row. */
  lemma OneRound(f: int -> real, lanes: nat, r: nat)
    requires lanes == 32
    ensures ColumnSums(Share(f), lanes)(r) == Sum(f, 32 * r, lanes)
  {
    var g := Column(Share(f), r);
    forall i | 0 <= i < lanes ensures g(i) == f(i - 0 + 32 * r) {
    }
    SumSame(g, f, 0, 32 * r, lanes);
  }

  lemma {:induction false} RoundsAreAll(f: int -> real, g: int -> real, lanes: nat, rounds: nat)
    requires lanes == 32 && forall r :: 0 <= r < rounds ==> g(r) == Sum(f, 32 * r, lanes)
    ensures Sum(g, 0, rounds) == Sum(f, 0, 32 * rounds)
  {
    if rounds > 0 {
      RoundsAreAll(f, g, lanes, rounds - 1);
      SumSplit(f, 0, 32 * (rounds - 1), lanes);
    }
  }

  lemma SharesAreRounds(g: int -> real, lanes: nat, rounds: nat)
    requires lanes == 32
    ensures Sum(RowSums(Share(g), rounds), 0, lanes) == Sum(g, 0, 32 * rounds)
  {
    SumSwap(Share(g), lanes, rounds);
    forall r | 0 <= r < rounds ensures ColumnSums(Share(g), lanes)(r) == Sum(g, 32 * r, lanes) {
      OneRound(g, lanes, r);
    }
    RoundsAreAll(g, ColumnSums(Share(g), lanes), lanes, rounds);
  }

  lemma SumUpTo(f: int -> real, n: nat, m: nat)
    ensures Sum(UpTo(f, n), 0, n + m) == Sum(f, 0, n)
  {
    SumSplit(UpTo(f, n), 0, n, m);
    SumZero(UpTo(f, n), n, m);
    SumSame(UpTo(f, n), f, 0, 0, n);
  }

  /** All shares together are all slots. */
  lemma SharesAreAll(f: int -> real, n: nat, lanes: nat, rounds: nat)
    requires lanes == 32 && n <= 32 * rounds
    ensures Sum(RowSums(Share(UpTo(f, n)), rounds), 0, lanes) == Sum(f, 0, n)
  {
    var rest := 32 * rounds - n;
    SharesAreRounds(UpTo(f, n), lanes, rounds);
    SumUpTo(f, n, rest);
    assert n + rest == 32 * rounds;
  }

  /** Rounds in which a work-item finds no column left add nothing. */
  lemma NoMoreShare(f: int -> real, tid: nat, i: nat, rounds: nat, n: nat)
    requires i <= rounds && 32 * i + tid >= n
    ensures Sum(Row(Share(UpTo(f, n)), tid), 0, rounds) == Sum(Row(Share(UpTo(f, n)), tid), 0, i)
  {
    var g := Row(Share(UpTo(f, n)), tid);
    SumSplit(g, 0, i, rounds - i);
    SumZero(g, i, rounds - i);
  }

  /** One block of the split layout: its 16 slots are its 32 columns. */
  lemma BlockSlots(f: int -> real, fmt: Format, b: nat, half: nat)
    requires fmt.Known() && fmt.qr == 2 && half == 16
    ensures Sum(SlotTerm(f, fmt), 16 * b, half) == Sum(f, 32 * b, half + half)
  {
    var g := SlotTerm(f, fmt);
    forall i | 16 * b <= i < 16 * b + half
      ensures g(i) == f(i - 16 * b + 32 * b) + f(i - 16 * b + (32 * b + half))
    {
      SlotOfBlock(f, fmt, b, i - 16 * b, i);
    }
    HalvesSum(f, g, half, 16 * b, 32 * b);
  }

  lemma SlotOfBlock(f: int -> real, fmt: Format, b: nat, j: nat, s: nat)
    requires fmt.Known() && fmt.qr == 2 && j < 16 && s == 16 * b + j
    ensures SlotTerm(f, fmt)(s) == f(32 * b + j) + f(32 * b + j + 16)
  {
    fmt.HalvesAt(b, j);
    assert 2 * s == 32 * b + 2 * j;
  }

  lemma {:induction false} SplitSum(f: int -> real, g: int -> real, b: nat, half: nat)
    requires half == 16 && forall k :: 0 <= k < b ==> Sum(g, 16 * k, half) == Sum(f, 32 * k, half + half)
    ensures Sum(g, 0, 16 * b) == Sum(f, 0, 32 * b)
  {
    if b > 0 {
      SplitSum(f, g, b - 1, half);
      SumSplit(g, 0, 16 * (b - 1), half);
      SumSplit(f, 0, 32 * (b - 1), half + half);
    }
  }

  lemma {:induction false} PairedSum(f: int -> real, g: int -> real, m: nat)
    requires forall s :: 0 <= s < m ==> g(s) == f(2 * s) + f(2 * s + 1)
    ensures Sum(g, 0, m) == Sum(f, 0, 2 * m)
  {
    if m > 0 {
      PairedSum(f, g, m - 1);
      assert Sum(f, 0, 2 * m - 1) == Sum(f, 0, 2 * m - 2) + f(2 * m - 2);
    }
  }

  lemma PairedSlots(f: int -> real, fmt: Format, n: nat)
    requires fmt.Known() && fmt.qr == 1
    ensures Sum(SlotTerm(f, fmt), 0, n) == Sum(f, 0, 2 * n)
  {
    forall s | 0 <= s < n ensures SlotTerm(f, fmt)(s) == f(2 * s) + f(2 * s + 1) {
      fmt.PairAt(s);
    }
    PairedSum(f, SlotTerm(f, fmt), n);
  }

  lemma SplitSlots(f: int -> real, fmt: Format, b: nat, half: nat)
    requires fmt.Known() && fmt.qr == 2 && half == 16
    ensures Sum(SlotTerm(f, fmt), 0, 16 * b) == Sum(f, 0, 32 * b)
  {
    forall k | 0 <= k < b ensures Sum(SlotTerm(f, fmt), 16 * k, half) == Sum(f, 32 * k, half + half) {
      BlockSlots(f, fmt, k, half);
    }
    SplitSum(f, SlotTerm(f, fmt), b, half);
  }

  /** The slots of a row add up to its columns. */
  lemma SlotsAreColumns(f: int -> real, fmt: Format, ncols: nat)
    requires fmt.Known() && fmt.ModQk(ncols) == 0 && ncols % 2 == 0
    ensures Sum(SlotTerm(f, fmt), 0, ncols / 2) == Sum(f, 0, ncols)
  {
    if fmt.qr == 1 {
      PairedSlots(f, fmt, ncols / 2);
    } else {
      assert ncols == 32 * (ncols / 32) && ncols / 2 == 16 * (ncols / 32);
      SplitSlots(f, fmt, ncols / 32, 16);
    }
  }

  /** What one loop iteration adds. */
  function PairValue(deq: Dequantizer, fmt: Format, base: nat, y: seq<real>, col: nat): real
    requires fmt.Known() && fmt.First(col) < |y| && fmt.Second(col) < |y|
  {
    var v := deq(fmt.BlockIndex(base, col), fmt.QuantIndex(col));
    v.0 * y[fmt.First(col)] + v.1 * y[fmt.Second(col)]
  }

  ghost predicate IsPair(deq: Dequantizer, fmt: Format, base: nat, y: seq<real>, s: nat, value: real)
    requires fmt.Known()
  {
    fmt.First(2 * s) < |y| && fmt.Second(2 * s) < |y| && value == PairValue(deq, fmt, base, y, 2 * s)
  }

  lemma SlotIsPair(w: int -> real, deq: Dequantizer, fmt: Format, base: nat, y: seq<real>, s: nat)
    requires fmt.Known() && fmt.First(2 * s) < |y| && fmt.Second(2 * s) < |y| && s < |y| / 2
    requires var v := deq(fmt.BlockIndex(base, 2 * s), fmt.QuantIndex(2 * s));
             w(fmt.First(2 * s)) == v.0 && w(fmt.Second(2 * s)) == v.1
    ensures SlotTerm(Terms(w, y), fmt)(s) == PairValue(deq, fmt, base, y, 2 * s)
  {
  }

  lemma SlotsArePairs(deq: Dequantizer, fmt: Format, base: nat, y: seq<real>)
    requires fmt.Known() && fmt.ModQk(|y|) == 0 && |y| % 2 == 0
    ensures forall s :: 0 <= s && 2 * s < |y| ==>
              IsPair(deq, fmt, base, y, s, SlotTerm(Terms(Weights(deq, fmt, base), y), fmt)(s))
  {
    forall s | 0 <= s && 2 * s < |y|
      ensures IsPair(deq, fmt, base, y, s, SlotTerm(Terms(Weights(deq, fmt, base), y), fmt)(s))
    {
      fmt.InRow(s, |y|);
      SlotWeights(deq, fmt, base, s);
      SlotIsPair(Weights(deq, fmt, base), deq, fmt, base, y, s);
    }
  }

  /** Adds the two products of column `col` to the partial sum of work-item `tid`. */
  method AddPair(deq: Dequantizer, fmt: Format, base: nat, y: seq<real>, col: nat, tmp: array<real>, tid: nat)
    requires fmt.Known() && fmt.First(col) < |y| && fmt.Second(col) < |y| && tid < tmp.Length
    modifies tmp
    ensures tmp[tid] == old(tmp[tid]) + PairValue(deq, fmt, base, y, col)
    ensures forall t :: 0 <= t < tmp.Length && t != tid ==> tmp[t] == old(tmp[t])
  {
    var v := deq(fmt.BlockIndex(base, col), fmt.QuantIndex(col));
    tmp[tid] := tmp[tid] + v.0 * y[fmt.First(col)];
    tmp[tid] := tmp[tid] + v.1 * y[fmt.Second(col)];
  }

  /**
   One work-item: walks the columns from `2 * tid` in steps of 64 and adds up its share in `tmp[tid]`. `f` names what
   each slot contributes. Behind a row of an odd number of columns one more number of `y` is read.
   */
  method WorkItem(deq: Dequantizer, fmt: Format, base: nat, ncols: nat, y: seq<real>, tid: nat, tmp: array<real>,
                  ghost f: int -> real, ghost rounds: nat)
    requires fmt.Known() && |y| == ncols + ncols % 2 && |y| / 2 <= 32 * rounds
    requires forall s {:trigger IsPair(deq, fmt, base, y, s, f(s))} ::
               0 <= s && 2 * s < |y| ==> IsPair(deq, fmt, base, y, s, f(s))
    requires tid < LOCAL_SIZE == tmp.Length
    modifies tmp
    ensures tmp[tid] == Sum(Row(Share(UpTo(f, |y| / 2)), tid), 0, rounds)
    ensures forall t :: 0 <= t < tmp.Length && t != tid ==> tmp[t] == old(tmp[t])
  {
    ghost var n := |y| / 2;
    ghost var g := Row(Share(UpTo(f, n)), tid);
    tmp[tid] := 0.0;
    var col := tid * 2;
    ghost var i := 0;
    while col < ncols
      invariant col == 2 * (32 * i + tid) && i <= rounds
      invariant tmp[tid] == Sum(g, 0, i)
      invariant forall t :: 0 <= t < tmp.Length && t != tid ==> tmp[t] == old(tmp[t])
    {
      ghost var s := 32 * i + tid;
      assert g(i) == f(s) && IsPair(deq, fmt, base, y, s, f(s));
      AddPair(deq, fmt, base, y, col, tmp, tid);
      i := i + 1;
      col := col + 32 * 2;
    }
    NoMoreShare(f, tid, i, rounds, n);
  }

  /**
   dequant_mul_mat_vec_template for the row that starts at `base`: 32 work-items, each with its own partial sum, then
   the reduction. The result is the dot product of the vector with the dequantised row; a row of an odd number of
   columns, which only the format without blocks has, takes in the column and the number after it.
   */
  method MatVecRow(deq: Dequantizer, fmt: Format, base: nat, ncols: nat, y: seq<real>) returns (dst: real)
    requires fmt.Known() && fmt.ModQk(ncols) == 0 && |y| == ncols + ncols % 2
    ensures dst == Sum(Terms(Weights(deq, fmt, base), y), 0, |y|)
  {
    ghost var terms := Terms(Weights(deq, fmt, base), y);
    WholeRow(fmt, ncols);
    SlotsArePairs(deq, fmt, base, y);
    SlotsAreColumns(terms, fmt, |y|);
    dst := WorkGroup(deq, fmt, base, ncols, y, SlotTerm(terms, fmt));
  }

  lemma WholeRow(fmt: Format, ncols: nat)
    requires fmt.Known() && fmt.ModQk(ncols) == 0
    ensures fmt.ModQk(ncols + ncols % 2) == 0 && (ncols + ncols % 2) % 2 == 0
    ensures fmt.qk == 32 ==> ncols % 2 == 0
  {
    if fmt.qk == 32 {
      RowIsEven(ncols);
    }
  }

  /** So the result is the dot product over the row itself exactly if the row is even or what is added is nothing. */
  lemma RowIsDotProduct(deq: Dequantizer, fmt: Format, base: nat, ncols: nat, y: seq<real>)
    requires fmt.Known() && |y| == ncols + ncols % 2
    ensures var terms := Terms(Weights(deq, fmt, base), y);
            Sum(terms, 0, |y|) == Sum(terms, 0, ncols)
            <==> ncols % 2 == 0 || fmt.Weight(deq, base, ncols) * y[ncols] == 0.0
  {
    if ncols % 2 == 1 {
      OneMoreTerm(Terms(Weights(deq, fmt, base), y), ncols, fmt.Weight(deq, base, ncols) * y[ncols]);
    }
  }

  lemma OneMoreTerm(f: int -> real, n: nat, x: real)
    requires f(n) == x
    ensures Sum(f, 0, n + 1) == Sum(f, 0, n) <==> x == 0.0
  {
    assert Sum(f, 0, n + 1) == Sum(f, 0, n) + f(0 + n);
  }

  method WorkGroup(deq: Dequantizer, fmt: Format, base: nat, ncols: nat, y: seq<real>, ghost f: int -> real)
    returns (dst: real)
    requires fmt.Known() && |y| == ncols + ncols % 2
    requires forall s {:trigger IsPair(deq, fmt, base, y, s, f(s))} ::
               0 <= s && 2 * s < |y| ==> IsPair(deq, fmt, base, y, s, f(s))
    ensures dst == Sum(f, 0, |y| / 2)
  {
    ghost var n := |y| / 2;
    var tmp := new real[LOCAL_SIZE];
    for tid := 0 to LOCAL_SIZE
      invariant forall t :: 0 <= t < tid ==> tmp[t] == RowSums(Share(UpTo(f, n)), n)(t)
    {
      WorkItem(deq, fmt, base, ncols, y, tid, tmp, f, n);
    }
    TotalIsSum(tmp[..], RowSums(Share(UpTo(f, n)), n));
    SharesAreAll(f, n, tmp.Length, n);
    Reduce(tmp);
    dst := tmp[0];
  }

  // ---------------------------------------------------------------- two quantised formats

  /** block_q4_0: 32 four-bit values, the low halves of the bytes first. */
  datatype BlockQ4 = BlockQ4(d: real, qs: seq<bv8>)

  /** block_q8_0: 32 signed bytes. */
  datatype BlockQ8 = BlockQ8(d: real, qs: seq<int>)

  function LowNibble(b: bv8): int { (b & 0xF) as int }

  function HighNibble(b: bv8): int { (b >> 4) as int }

  /** dequantize_q4_0 */
  function DequantizeQ4(x: seq<BlockQ4>): Dequantizer {
    (ib, iqs) =>
      if 0 <= ib < |x| && 0 <= iqs < |x[ib].qs| then
        var vui := x[ib].qs[iqs];
        ((LowNibble(vui) - 8) as real * x[ib].d, (HighNibble(vui) - 8) as real * x[ib].d)
      else (0.0, 0.0)
  }

  /** dequantize_q8_0; `beyond` is what is read behind the bytes of a block. */
  function DequantizeQ8(x: seq<BlockQ8>, beyond: int -> int): Dequantizer {
    (ib, iqs) =>
      if 0 <= ib < |x| && 0 <= iqs < |x[ib].qs| then
        var next := if iqs + 1 < |x[ib].qs| then x[ib].qs[iqs + 1] else beyond(ib);
        (x[ib].qs[iqs] as real * x[ib].d, next as real * x[ib].d)
      else (0.0, 0.0)
  }

  /** convert_f16, of numbers instead of blocks. */
  function ConvertF16(x: seq<real>): Dequantizer {
    (ib, iqs) => if 0 <= ib && ib + 1 < |x| then (x[ib], x[ib + 1]) else (0.0, 0.0)
  }

  lemma SplitIndices(first: nat, b: nat, r: nat)
    requires r < 32
    ensures var fmt, j := Format(32, 2), if r < 16 then r else r - 16;
            var col := 2 * fmt.Slot(32 * b + r);
            && fmt.BlockIndex(32 * first, col) == first + b && fmt.QuantIndex(col) == j
            && (fmt.IsFirst(32 * b + r) <==> r < 16)
  {
    var j := if r < 16 then r else r - 16;
    Format(32, 2).HalvesAt(b, j);
    assert 32 * first + (32 * b + 2 * j) == 32 * (first + b) + 2 * j;
    DivMod32(first + b, 2 * j);
    DivMod32(b, 2 * j);
  }

  lemma HalvedAndDoubled(b: nat, r: nat)
    ensures 2 * ((32 * b + r) / 2) == 32 * b + (r - r % 2) && (32 * b + r) % 2 == r % 2
  {
  }

  lemma PairedIndices(first: nat, b: nat, r: nat)
    requires r < 32
    ensures var fmt, even := Format(32, 1), r - r % 2;
            var col := 2 * fmt.Slot(32 * b + r);
            && fmt.BlockIndex(32 * first, col) == first + b && fmt.QuantIndex(col) == even
            && (fmt.IsFirst(32 * b + r) <==> r == even)
  {
    var even := r - r % 2;
    HalvedAndDoubled(b, r);
    assert 32 * first + (32 * b + even) == 32 * (first + b) + even;
    DivMod32(first + b, even);
    DivMod32(b, even);
  }

  /** The two numbers below 16 that a byte packs. */
  lemma Nibbles(b: bv8)
    ensures LowNibble(b) == b as int % 16
    ensures HighNibble(b) == b as int / 16
  {
  }

  /** Column `32 * b + r` of a q4_0 row that starts at block `first`: a nibble less 8, scaled. */
  lemma WeightQ4(x: seq<BlockQ4>, first: nat, b: nat, r: nat)
    requires first + b < |x| && |x[first + b].qs| == 16 && r < 32
    ensures var block := x[first + b];
            Format(32, 2).Weight(DequantizeQ4(x), 32 * first, 32 * b + r)
            == ((if r < 16 then LowNibble(block.qs[r]) else HighNibble(block.qs[r - 16])) - 8) as real * block.d
  {
    var j := if r < 16 then r else r - 16;
    SplitIndices(first, b, r);
    DequantizedQ4(x, first + b, j);
    WeightIs(Format(32, 2), DequantizeQ4(x), 32 * first, 32 * b + r, first + b, j);
  }

  lemma WeightIs(fmt: Format, deq: Dequantizer, base: nat, c: nat, ib: nat, iqs: nat)
    requires fmt.Known() && fmt.BlockIndex(base, 2 * fmt.Slot(c)) == ib && fmt.QuantIndex(2 * fmt.Slot(c)) == iqs
    ensures fmt.Weight(deq, base, c) == if fmt.IsFirst(c) then deq(ib, iqs).0 else deq(ib, iqs).1
  {
  }

  lemma DequantizedQ4(x: seq<BlockQ4>, ib: nat, iqs: nat)
    requires ib < |x| && iqs < |x[ib].qs|
    ensures DequantizeQ4(x)(ib, iqs).0 == (LowNibble(x[ib].qs[iqs]) - 8) as real * x[ib].d
    ensures DequantizeQ4(x)(ib, iqs).1 == (HighNibble(x[ib].qs[iqs]) - 8) as real * x[ib].d
  {
  }

  /** Column `32 * b + r` of a q8_0 row that starts at block `first`: its byte, scaled. */
  lemma WeightQ8(x: seq<BlockQ8>, beyond: int -> int, first: nat, b: nat, r: nat)
    requires first + b < |x| && |x[first + b].qs| == 32 && r < 32
    ensures Format(32, 1).Weight(DequantizeQ8(x, beyond), 32 * first, 32 * b + r)
         == x[first + b].qs[r] as real * x[first + b].d
  {
    PairedIndices(first, b, r);
  }

  /** Column `c` of a row of 16-bit floats that starts at `base`. */
  lemma WeightF16(x: seq<real>, base: nat, c: nat)
    requires base + c + 1 < |x|
    ensures Format(1, 1).Weight(ConvertF16(x), base, c) == x[base + c]
  {
  }

  /**
   The failing case of q8_0 in groups of one work-item: the item at the last column of block `b` writes the first
   column of the next block, with what stands behind the bytes of its own block.
   */
  lemma WrongColumn(x: seq<BlockQ8>, beyond: int -> int, b: nat, fmt: Format)
    requires b < |x| && |x[b].qs| == 32 && fmt.qk == 32 && fmt.qr == 1
    ensures ItemColumn(32 * b + 31, 1) == 32 * b + 31 && fmt.Second(32 * b + 31) == 32 * (b + 1)
    ensures fmt.BlockIndex(0, 32 * b + 31) == b && fmt.QuantIndex(32 * b + 31) == 31
    ensures DequantizeQ8(x, beyond)(b, 31).1 == beyond(b) as real * x[b].d
  {
    DivMod32(b, 31);
  }
}
