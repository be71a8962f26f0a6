/**
 The q4_K kernels: the fused product of a quantised row and a vector, which unpacks the scales two bytes at a time
 with 16-bit masks, is the dot product with what the plain kernel dequantises.
 */
module Q4K {
  import opened RealSums

  /** block_q4_K: 256 four-bit values in 8 groups of 32, each with a six-bit scale and minimum packed into 12 bytes. */
  datatype Block = Block(d: real, dmin: real, scales: seq<bv8>, qs: seq<bv8>) {
    predicate Valid() {
      |scales| == 12 && |qs| == 128
    }
  }

  function Low(b: bv8): bv8 { b & 0xF }

  function High(b: bv8): bv8 { b >> 4 }

  function Real(b: bv8): real { b as int as real }

  // ---------------------------------------------------------------- scales

  function SixBits(b: bv8): bv8 { b & 63 }

  function JoinLow(b: bv8, top: bv8): bv8 { (b & 0xF) | ((top >> 6) << 4) }

  function JoinHigh(b: bv8, top: bv8): bv8 { (b >> 4) | ((top >> 6) << 4) }

  /** get_scale_min_k4: scale of group `j`. */
  function Scale(j: nat, q: seq<bv8>): bv8
    requires j < 8 && |q| == 12
  {
    if j < 4 then SixBits(q[j]) else JoinLow(q[j + 4], q[j - 4])
  }

  /** get_scale_min_k4: minimum of group `j`. */
  function Minimum(j: nat, q: seq<bv8>): bv8
    requires j < 8 && |q| == 12
  {
    if j < 4 then SixBits(q[j + 4]) else JoinHigh(q[j + 4], q[j])
  }

  /** What the masks and shifts take from a byte, as numbers. */
  lemma PartsOfByte(b: bv8)
    ensures Low(b) as int == b as int % 16 && High(b) as int == b as int / 16 && SixBits(b) as int == b as int % 64
  {
    LowIs(b);
    HighIs(b);
    SixBitsIs(b);
  }

  lemma LowIs(b: bv8)
    ensures Low(b) as int == b as int % 16
  {
  }

  lemma HighIs(b: bv8)
    ensures High(b) as int == b as int / 16
  {
  }

  lemma SixBitsIs(b: bv8)
    ensures SixBits(b) as int == b as int % 64
  {
  }

  lemma TopIs(b: bv8)
    ensures (b >> 6) as int == b as int / 64 < 4
  {
  }

  /** Four bits and two bits over them are put together as numbers are. */
  lemma Joined(low: bv8, top: bv8)
    requires low < 16 && top < 4
    ensures (low | (top << 4)) as int == low as int + 16 * (top as int)
  {
  }

  lemma JoinedParts(b: bv8, top: bv8)
    ensures JoinLow(b, top) as int == b as int % 16 + 16 * (top as int / 64)
    ensures JoinHigh(b, top) as int == b as int / 16 + 16 * (top as int / 64)
  {
    LowIs(b);
    HighIs(b);
    TopIs(top);
    Joined(b & 0xF, top >> 6);
    Joined(b >> 4, top >> 6);
  }

  /** The twelve bytes into which quantize_row_q4_K packs eight scales and eight minimums of six bits. */
  function Pack(sc: seq<bv8>, mn: seq<bv8>): (q: seq<bv8>)
    requires |sc| == |mn| == 8
    ensures |q| == 12
  {
    seq(12, i requires 0 <= i < 12 =>
      if i < 4 then UnderTop(sc[i], sc[i + 4])
      else if i < 8 then UnderTop(mn[i - 4], mn[i])
      else TwoLows(sc[i - 4], mn[i - 4]))
  }

  /** Six bits, and over them the upper two of another six. */
  function UnderTop(v: bv8, other: bv8): bv8 { v | ((other >> 4) << 6) }

  function TwoLows(s: bv8, m: bv8): bv8 { (s & 0xF) | ((m & 0xF) << 4) }

  /** Every eight scales and minimums below 64 come back from their twelve bytes. */
  lemma PackedComesBack(sc: seq<bv8>, mn: seq<bv8>, j: nat)
    requires |sc| == |mn| == 8 && j < 8 && forall i :: 0 <= i < 8 ==> sc[i] < 64 && mn[i] < 64
    ensures Scale(j, Pack(sc, mn)) == sc[j] && Minimum(j, Pack(sc, mn)) == mn[j]
  {
    var q := Pack(sc, mn);
    if j < 4 {
      SixAndTop(sc[j], sc[j + 4]);
      SixAndTop(mn[j], mn[j + 4]);
    } else {
      LowAndTop(sc[j], mn[j], sc[j - 4]);
      LowAndTop(sc[j], mn[j], mn[j - 4]);
      assert q[j + 4] == TwoLows(sc[j], mn[j]);
      assert q[j - 4] == UnderTop(sc[j - 4], sc[j]) && q[j] == UnderTop(mn[j - 4], mn[j]);
    }
  }

  lemma SixAndTop(v: bv8, top: bv8)
    requires v < 64
    ensures SixBits(UnderTop(v, top)) == v
  {
  }

  lemma LowAndTop(s: bv8, m: bv8, v: bv8)
    requires s < 64 && m < 64 && v < 64
    ensures JoinLow(TwoLows(s, m), UnderTop(v, s)) == s && JoinHigh(TwoLows(s, m), UnderTop(v, m)) == m
  {
  }

  /** A little-endian 16-bit word of two bytes. */
  function Word(lo: bv8, hi: bv8): bv16 { (hi as bv16 << 8) | lo as bv16 }

  function LowByte(w: bv16): bv8 { (w & 0xFF) as bv8 }

  function HighByte(w: bv16): bv8 { (w >> 8) as bv8 }

  /** The bytes of the four words unpacked from the words `a0`, `a2` and `a4`. */
  function UnpackWords(a0: bv16, a2: bv16, a4: bv16): (sc: seq<bv8>)
    ensures |sc| == 8
  {
    var aux0 := a0 & 0x3f3f;
    var aux1 := a2 & 0x3f3f;
    var aux2 := ((a4 >> 0) & 0x0f0f) | ((a0 & 0xc0c0) >> 2);
    var aux3 := ((a4 >> 4) & 0x0f0f) | ((a2 & 0xc0c0) >> 2);
    [LowByte(aux0), HighByte(aux0), LowByte(aux1), HighByte(aux1),
     LowByte(aux2), HighByte(aux2), LowByte(aux3), HighByte(aux3)]
  }

  /** What the masks do to the six bytes of the three words. */
  lemma UnpackedBytes(s0: bv8, s1: bv8, m0: bv8, m1: bv8, x0: bv8, x1: bv8)
    ensures UnpackWords(Word(s0, s1), Word(m0, m1), Word(x0, x1))
            == [SixBits(s0), SixBits(s1), SixBits(m0), SixBits(m1),
                JoinLow(x0, s0), JoinLow(x1, s1), JoinHigh(x0, m0), JoinHigh(x1, m1)]
  {
  }

  /** The eight bytes that a work-item unpacks for the groups `2 * im`, `2 * im + 1` and those 4 further on. */
  function Unpack(q: seq<bv8>, im: nat): (sc: seq<bv8>)
    requires |q| == 12 && im < 2
    ensures |sc| == 8
  {
    var j := 2 * im;
    UnpackWords(Word(q[j], q[j + 1]), Word(q[j + 4], q[j + 5]), Word(q[j + 8], q[j + 9]))
  }

  /** The masked 16-bit unpacking yields the scales and minimums of get_scale_min_k4, for every packed byte. */
  lemma UnpackIsScales(q: seq<bv8>, im: nat)
    requires |q| == 12 && im < 2
    ensures var j := 2 * im;
            Unpack(q, im) == [Scale(j, q), Scale(j + 1, q), Minimum(j, q), Minimum(j + 1, q),
                              Scale(j + 4, q), Scale(j + 5, q), Minimum(j + 4, q), Minimum(j + 5, q)]
  {
    var j := 2 * im;
    UnpackedBytes(q[j], q[j + 1], q[j + 4], q[j + 5], q[j + 8], q[j + 9]);
  }

  // ---------------------------------------------------------------- the plain kernel

  /** The four-bit value of column `c`. */
  function Quant(x: Block, c: nat): bv8
    requires x.Valid() && c < 256
  {
    if c % 64 < 32 then Low(x.qs[c / 64 * 32 + c % 64]) else High(x.qs[c / 64 * 32 + c % 64 - 32])
  }

  /** The numbers that a block stands for. */
  datatype Decoded = Decoded(d: real, dmin: real, scale: seq<real>, minimum: seq<real>, quant: seq<real>) {
    predicate Valid() {
      |scale| == |minimum| == 8 && |quant| == 256
    }

    /** Column `c` dequantised with the scale and minimum of its group. */
    function Value(c: nat): real
      requires Valid() && c < 256
    {
      d * scale[c / 32] * quant[c] - dmin * minimum[c / 32]
    }
  }

  /** `w` holds the scale and minimum of every group and the four-bit value of every column of `x`. */
  ghost predicate DecodesTo(x: Block, w: Decoded) {
    && x.Valid() && w.Valid() && w.d == x.d && w.dmin == x.dmin
    && (forall j {:trigger Scale(j, x.scales)} :: 0 <= j < 8 ==> w.scale[j] == Real(Scale(j, x.scales)))
    && (forall j {:trigger Minimum(j, x.scales)} :: 0 <= j < 8 ==> w.minimum[j] == Real(Minimum(j, x.scales)))
    && (forall c {:trigger Quant(x, c)} :: 0 <= c < 256 ==> w.quant[c] == Real(Quant(x, c)))
  }

  function Decode(x: Block): (w: Decoded)
    requires x.Valid()
    ensures DecodesTo(x, w)
  {
    Decoded(x.d, x.dmin,
            seq(8, j requires 0 <= j < 8 => Real(Scale(j, x.scales))),
            seq(8, j requires 0 <= j < 8 => Real(Minimum(j, x.scales))),
            seq(256, c requires 0 <= c < 256 => Real(Quant(x, c))))
  }

  /** The two columns that share byte `r` of 64 columns from `64 * il` on. */
  lemma QuantAt(x: Block, il: nat, r: nat)
    requires x.Valid() && il < 4 && r < 32
    ensures (64 * il + r) / 32 == 2 * il && Quant(x, 64 * il + r) == Low(x.qs[32 * il + r])
    ensures (64 * il + r + 32) / 32 == 2 * il + 1 && Quant(x, 64 * il + r + 32) == High(x.qs[32 * il + r])
  {
    assert (64 * il + r) / 64 == il && (64 * il + r + 32) / 64 == il;
    assert (64 * il + r) % 64 == r && (64 * il + r + 32) % 64 == r + 32;
  }

  /** The work-item of dequantize_block_q4_K that writes column `c`. */
  function Writer(c: nat): nat {
    8 * (c / 64) + c % 32 / 4
  }

  /** Column `c` in group `g` of 64, its half `h`, four `f` of that half and place `k` of that four. */
  lemma SplitColumn(c: nat) returns (g: nat, h: nat, f: nat, k: nat)
    ensures c == 64 * g + 32 * h + 4 * f + k && h < 2 && f < 8 && k < 4
    ensures Writer(c) == 8 * g + f
  {
    var r := c % 32;
    g, h, f, k := c / 64, c % 64 / 32, r / 4, r % 4;
    HalvesOf64(c);
    QuartersOf32(r);
  }

  lemma HalvesOf64(c: nat)
    ensures c == 64 * (c / 64) + 32 * (c % 64 / 32) + c % 32 && c % 64 / 32 < 2
  {
    var g, half := c / 64, c % 64;
    var h, r := half / 32, half % 32;
    assert c == 64 * g + half && half == 32 * h + r;
    Remainder32(c, 2 * g + h, r);
  }

  lemma Remainder32(c: nat, q: nat, r: nat)
    requires c == 32 * q + r && r < 32
    ensures c % 32 == r
  {
  }

  lemma QuartersOf32(r: nat)
    requires r < 32
    ensures r == 4 * (r / 4) + r % 4 && r / 4 < 8 && r % 4 < 4
  {
  }

  lemma WriterAt(c: nat, il: nat, ir: nat)
    requires ir < 8
    ensures var first := 64 * il + 4 * ir;
            Writer(c) == 8 * il + ir <==> first <= c < first + 4 || first + 32 <= c < first + 36
  {
    var g, h, f, k := SplitColumn(c);
    if g == il {
      assert 32 * h + 4 * f + k == c - 64 * il;
    }
  }

  /** `t` lists the values of the columns. */
  ghost predicate Lists(w: Decoded, t: seq<real>)
    requires w.Valid()
  {
    |t| == 256 && forall c {:trigger w.Value(c)} :: 0 <= c < 256 ==> t[c] == w.Value(c)
  }

  /** The two halves of byte `r`. */
  method ReadByte(x: Block, il: nat, r: nat, ghost w: Decoded) returns (q1: real, q2: real)
    requires DecodesTo(x, w) && il < 4 && r < 32
    ensures q1 == w.quant[64 * il + r] && q2 == w.quant[64 * il + r + 32]
  {
    QuantAt(x, il, r);
    var q := x.qs[32 * il + r];
    q1, q2 := Real(Low(q)), Real(High(q));
  }

  /** Scale and minimum of group `j`. */
  method ReadGroup(x: Block, j: nat, ghost w: Decoded) returns (sc: real, m: real)
    requires DecodesTo(x, w) && j < 8
    ensures sc == w.scale[j] && m == w.minimum[j]
  {
    sc, m := Real(Scale(j, x.scales)), Real(Minimum(j, x.scales));
  }

  /** The values of the two columns of a byte, from the factors of their groups. */
  lemma ValuePair(w: Decoded, il: nat, r: nat, d1: real, m1: real, d2: real, m2: real, t: seq<real>, c: nat)
    requires w.Valid() && il < 4 && r < 32 && Lists(w, t) && c == 64 * il + r
    requires d1 == w.d * w.scale[2 * il] && m1 == w.dmin * w.minimum[2 * il]
    requires d2 == w.d * w.scale[2 * il + 1] && m2 == w.dmin * w.minimum[2 * il + 1]
    ensures d1 * w.quant[64 * il + r] - m1 == t[c]
    ensures d2 * w.quant[64 * il + r + 32] - m2 == t[c + 32]
  {
    assert c / 32 == 2 * il && (c + 32) / 32 == 2 * il + 1;
    assert t[c] == w.Value(c) && t[c + 32] == w.Value(c + 32);
  }

  method WritePair(y: array<real>, c: nat, v1: real, v2: real)
    requires c + 32 < y.Length
    modifies y
    ensures y[..] == old(y[..])[c := v1][c + 32 := v2]
  {
    y[c] := v1;
    y[c + 32] := v2;
  }

  /** `now` is `was` with the first `l` columns from `first` and from `first + 32` taken from `t`. */
  ghost predicate Written(now: seq<real>, was: seq<real>, t: seq<real>, first: nat, l: nat) {
    && |now| == |was| == |t| == 256
    && forall c {:trigger now[c]} :: 0 <= c < 256 ==>
         now[c] == if first <= c < first + l || first + 32 <= c < first + 32 + l then t[c] else was[c]
  }

  lemma WriteNext(now: seq<real>, was: seq<real>, t: seq<real>, first: nat, l: nat, c: nat)
    requires Written(now, was, t, first, l) && l < 32 && c == first + l && c + 32 < 256
    ensures Written(now[c := t[c]][c + 32 := t[c + 32]], was, t, first, l + 1)
  {
  }

  /** `now` is `was` with the columns of work-item `tid` taken from `t`. */
  ghost predicate WrittenBy(now: seq<real>, was: seq<real>, t: seq<real>, tid: nat) {
    && |now| == |was| == |t| == 256
    && forall c: nat {:trigger Writer(c)} :: c < 256 ==> now[c] == if Writer(c) == tid then t[c] else was[c]
  }

  method DequantizeItem(x: Block, y: array<real>, tid: nat, ghost w: Decoded, ghost t: seq<real>)
    requires y.Length == 256 && tid < 32 && DecodesTo(x, w) && Lists(w, t)
    modifies y
    ensures WrittenBy(y[..], old(y[..]), t, tid)
  {
    var il, ir := tid / 8, tid % 8;
    var first := 64 * il + 4 * ir;
    var sc, m := ReadGroup(x, 2 * il, w);
    var d1, m1 := x.d * sc, x.dmin * m;
    sc, m := ReadGroup(x, 2 * il + 1, w);
    var d2, m2 := x.d * sc, x.dmin * m;
    ghost var was := y[..];
    for l := 0 to 4
      invariant Written(y[..], was, t, first, l)
    {
      var c := first + l;
      var q1, q2 := ReadByte(x, il, 4 * ir + l, w);
      var v1, v2 := d1 * q1 - m1, d2 * q2 - m2;
      ValuePair(w, il, 4 * ir + l, d1, m1, d2, m2, t, c);
      assert v1 == t[c] && v2 == t[c + 32];
      WriteNext(y[..], was, t, first, l, c);
      WritePair(y, c, v1, v2);
    }
    AllWritten(y[..], was, t, il, ir);
  }

  lemma AllWritten(now: seq<real>, was: seq<real>, t: seq<real>, il: nat, ir: nat)
    requires il < 4 && ir < 8 && Written(now, was, t, 64 * il + 4 * ir, 4)
    ensures WrittenBy(now, was, t, 8 * il + ir)
  {
    forall c: nat {:trigger Writer(c)} | c < 256
      ensures now[c] == if Writer(c) == 8 * il + ir then t[c] else was[c]
    {
      WriterAt(c, il, ir);
    }
  }

  /** The columns of the first `n` work-items are those of `t`. */
  ghost predicate WrittenUpTo(y: seq<real>, t: seq<real>, n: nat) {
    |y| == |t| == 256 && forall c: nat {:trigger Writer(c)} :: c < 256 && Writer(c) < n ==> y[c] == t[c]
  }

  lemma OneMoreWriter(now: seq<real>, was: seq<real>, t: seq<real>, n: nat)
    requires WrittenUpTo(was, t, n) && WrittenBy(now, was, t, n)
    ensures WrittenUpTo(now, t, n + 1)
  {
  }

  lemma AllWriters(y: seq<real>, t: seq<real>)
    requires WrittenUpTo(y, t, 32)
    ensures y == t
  {
    forall c: nat | c < 256
      ensures y[c] == t[c]
    {
      var g, h, f, k := SplitColumn(c);
      assert Writer(c) < 32;
    }
  }

  /** dequantize_block_q4_K: 32 work-items write every column of the block once. */
  method DequantizeBlock(x: Block) returns (y: array<real>)
    requires x.Valid()
    ensures fresh(y) && y.Length == 256 && Lists(Decode(x), y[..])
  {
    ghost var w := Decode(x);
    ghost var t := seq(256, c requires 0 <= c < 256 => w.Value(c));
    y := new real[256];
    ghost var now := y[..];
    for tid := 0 to 32
      invariant y[..] == now && WrittenUpTo(now, t, tid)
    {
      DequantizeItem(x, y, tid, w, t);
      OneMoreWriter(y[..], now, t, tid);
      now := y[..];
    }
    AllWriters(now, t);
  }

  // ---------------------------------------------------------------- one work-item, one block

  /** `t` gives the terms of one block, whatever it is outside of it. */
  ghost predicate TermsOf(w: Decoded, y: seq<real>, t: int -> real)
    requires w.Valid() && |y| == 256
  {
    forall c {:trigger w.Value(c)} :: 0 <= c < 256 ==> t(c) == w.Value(c) * y[c]
  }

  /** The four columns that go together at offset `k` of half `im`. */
  ghost function Four(t: int -> real, im: int): int -> real {
    k => t(64 * im + k) + t(64 * im + 32 + k) + t(64 * im + 128 + k) + t(64 * im + 160 + k)
  }

  /** Offset of the first of the two places where work-item `tid` reads. */
  function Offset(tid: nat): nat {
    4 * (tid % 8) + 2 * (tid / 8 % 2)
  }

  /** Two neighbouring terms. */
  ghost function Two(g: int -> real, k: int): real {
    g(k) + g(k + 1)
  }

  /** The share of work-item `tid` in the terms `t`. */
  ghost function Item(t: int -> real, tid: nat): real {
    Two(Four(t, tid / 16), Offset(tid))
  }

  /** `s += y * q` for vectors of four. */
  function MulAdd(s: seq<real>, y: seq<real>, q: seq<real>): (r: seq<real>)
    requires |s| == |y| == |q| == 4
    ensures |r| == 4
  {
    [s[0] + y[0] * q[0], s[1] + y[1] * q[1], s[2] + y[2] * q[2], s[3] + y[3] * q[3]]
  }

  function Dot4(a: seq<real>, b: seq<real>): real
    requires |a| == |b| == 4
  {
    a[0] * b[0] + a[1] * b[1] + a[2] * b[2] + a[3] * b[3]
  }

  const ZERO4: seq<real> := [0.0, 0.0, 0.0, 0.0]

  /** Four dequantised values times four entries of the vector. */
  function Dequant4(d: real, dm: real, s: seq<real>, m: seq<real>, q: seq<real>, y: seq<real>): real
    requires |s| == |m| == |q| == |y| == 4
  {
    (d * s[0] * q[0] - dm * m[0]) * y[0] + (d * s[1] * q[1] - dm * m[1]) * y[1]
    + (d * s[2] * q[2] - dm * m[2]) * y[2] + (d * s[3] * q[3] - dm * m[3]) * y[3]
  }

  /** Collecting two products of a group before scaling them changes nothing. */
  lemma Regroup(d: real, dm: real, s: real, m: real, y0: real, q0: real, y1: real, q1: real)
    ensures d * ((0.0 + y0 * q0 + y1 * q1) * s) - dm * (y0 * m + y1 * m)
            == (d * s * q0 - dm * m) * y0 + (d * s * q1 - dm * m) * y1
  {
  }

  /** The same for four groups at once. */
  lemma RegroupFour(d: real, dm: real, s: seq<real>, m: seq<real>, y0: seq<real>, q0: seq<real>, y1: seq<real>,
                    q1: seq<real>)
    requires |s| == |m| == |y0| == |q0| == |y1| == |q1| == 4
    ensures d * Dot4(MulAdd(MulAdd(ZERO4, y0, q0), y1, q1), s) - dm * (0.0 + Dot4(y0, m) + Dot4(y1, m))
            == Dequant4(d, dm, s, m, q0, y0) + Dequant4(d, dm, s, m, q1, y1)
  {
    Regroup(d, dm, s[0], m[0], y0[0], q0[0], y1[0], q1[0]);
    Regroup(d, dm, s[1], m[1], y0[1], q0[1], y1[1], q1[1]);
    Regroup(d, dm, s[2], m[2], y0[2], q0[2], y1[2], q1[2]);
    Regroup(d, dm, s[3], m[3], y0[3], q0[3], y1[3], q1[3]);
  }

  /** Four columns of place `o` of a sequence over the columns. */
  function Place(y: seq<real>, o: nat): (r: seq<real>)
    requires o + 160 < |y|
    ensures |r| == 4
  {
    [y[o], y[o + 32], y[o + 128], y[o + 160]]
  }

  /** The four groups that a work-item in half `im` reads. */
  function Groups(s: seq<real>, im: nat): (r: seq<real>)
    requires |s| == 8 && im < 2
    ensures |r| == 4
  {
    [s[2 * im], s[2 * im + 1], s[2 * im + 4], s[2 * im + 5]]
  }

  lemma TermAt(w: Decoded, y: seq<real>, t: int -> real, c: nat, j: nat)
    requires w.Valid() && |y| == 256 && TermsOf(w, y, t) && c < 256 && c / 32 == j
    ensures t(c) == (w.d * w.scale[j] * w.quant[c] - w.dmin * w.minimum[j]) * y[c]
  {
    assert t(c) == w.Value(c) * y[c];
  }

  /** The four terms of one place. */
  lemma PlaceTerms(w: Decoded, y: seq<real>, t: int -> real, im: nat, k: nat)
    requires w.Valid() && |y| == 256 && TermsOf(w, y, t) && im < 2 && k < 32
    ensures Four(t, im)(k)
            == Dequant4(w.d, w.dmin, Groups(w.scale, im), Groups(w.minimum, im), Place(w.quant, 64 * im + k),
                        Place(y, 64 * im + k))
  {
    var c := 64 * im + k;
    TermAt(w, y, t, c, 2 * im);
    TermAt(w, y, t, c + 32, 2 * im + 1);
    TermAt(w, y, t, c + 128, 2 * im + 4);
    TermAt(w, y, t, c + 160, 2 * im + 5);
  }

  /** The quants that a work-item reads at place `k` of half `im`. */
  method ReadPlace(x: Block, im: nat, k: nat, ghost w: Decoded) returns (q: seq<real>)
    requires DecodesTo(x, w) && im < 2 && k < 32
    ensures q == Place(w.quant, 64 * im + k)
  {
    QuantAt(x, im, k);
    QuantAt(x, im + 2, k);
    assert 64 * (im + 2) + k == 64 * im + k + 128 && 32 * (im + 2) + k == 32 * im + k + 64;
    var q1, q2 := x.qs[32 * im + k], x.qs[32 * im + k + 64];
    q := [Real(Low(q1)), Real(High(q1)), Real(Low(q2)), Real(High(q2))];
  }

  /** The scales and minimums that it unpacks. */
  method UnpackGroups(x: Block, im: nat, ghost w: Decoded) returns (s: seq<real>, m: seq<real>)
    requires DecodesTo(x, w) && im < 2
    ensures s == Groups(w.scale, im) && m == Groups(w.minimum, im)
  {
    UnpackIsScales(x.scales, im);
    var sc := Unpack(x.scales, im);
    s := [Real(sc[0]), Real(sc[1]), Real(sc[4]), Real(sc[5])];
    m := [Real(sc[2]), Real(sc[3]), Real(sc[6]), Real(sc[7])];
  }

  /** The sums of both places, scaled and less the minimums, are the terms of eight columns. */
  lemma CollectPlaces(w: Decoded, y: seq<real>, t: int -> real, im: nat, k: nat, y0: seq<real>, q0: seq<real>,
                      y1: seq<real>, q1: seq<real>)
    requires w.Valid() && |y| == 256 && TermsOf(w, y, t) && im < 2 && k < 31
    requires y0 == Place(y, 64 * im + k) && y1 == Place(y, 64 * im + k + 1)
    requires q0 == Place(w.quant, 64 * im + k) && q1 == Place(w.quant, 64 * im + k + 1)
    ensures var (s, m) := (Groups(w.scale, im), Groups(w.minimum, im));
            w.d * Dot4(MulAdd(MulAdd(ZERO4, y0, q0), y1, q1), s) - w.dmin * (0.0 + Dot4(y0, m) + Dot4(y1, m))
            == Two(Four(t, im), k)
  {
    RegroupFour(w.d, w.dmin, Groups(w.scale, im), Groups(w.minimum, im), y0, q0, y1, q1);
    PlaceTerms(w, y, t, im, k);
    PlaceTerms(w, y, t, im, k + 1);
  }

  /** The loop over both places: the sums of products, and the sum of the minimums' share. */
  method Accumulate(x: Block, y: seq<real>, im: nat, l0: nat, mn: seq<real>, ghost w: Decoded)
    returns (s: seq<real>, smin: real)
    requires DecodesTo(x, w) && |y| == 256 && im < 2 && l0 < 31 && |mn| == 4
    ensures var (y0, y1) := (Place(y, 64 * im + l0), Place(y, 64 * im + l0 + 1));
            var (q0, q1) := (Place(w.quant, 64 * im + l0), Place(w.quant, 64 * im + l0 + 1));
            s == MulAdd(MulAdd(ZERO4, y0, q0), y1, q1) && smin == 0.0 + Dot4(y0, mn) + Dot4(y1, mn)
  {
    s, smin := ZERO4, 0.0;
    ghost var (y0, q0) := (Place(y, 64 * im + l0), Place(w.quant, 64 * im + l0));
    for l := 0 to 2
      invariant l == 0 ==> s == ZERO4 && smin == 0.0
      invariant l == 1 ==> s == MulAdd(ZERO4, y0, q0) && smin == 0.0 + Dot4(y0, mn)
      invariant l == 2 ==>
                  var (y1, q1) := (Place(y, 64 * im + l0 + 1), Place(w.quant, 64 * im + l0 + 1));
                  s == MulAdd(MulAdd(ZERO4, y0, q0), y1, q1) && smin == 0.0 + Dot4(y0, mn) + Dot4(y1, mn)
    {
      var q := ReadPlace(x, im, l0 + l, w);
      var p := Place(y, 64 * im + l0 + l);
      s, smin := MulAdd(s, p, q), smin + Dot4(p, mn);
    }
  }

  /** What one work-item adds for one block: four scaled sums less one sum of minimums. */
  method BlockItem(x: Block, y: seq<real>, tid: nat, ghost w: Decoded, ghost t: int -> real) returns (v: real)
    requires DecodesTo(x, w) && |y| == 256 && TermsOf(w, y, t) && tid < 32
    ensures v == Item(t, tid)
  {
    var il, ir := tid / 8, tid % 8;
    var im, in_ := il / 2, il % 2;
    var l0 := 2 * (2 * ir + in_);
    assert im == tid / 16 && l0 == Offset(tid);
    v := CombineItem(x, y, im, l0, w, t);
  }

  method CombineItem(x: Block, y: seq<real>, im: nat, l0: nat, ghost w: Decoded, ghost t: int -> real)
    returns (v: real)
    requires DecodesTo(x, w) && |y| == 256 && TermsOf(w, y, t) && im < 2 && l0 < 31
    ensures v == Two(Four(t, im), l0)
  {
    var sc, mn := UnpackGroups(x, im, w);
    var s, smin := Accumulate(x, y, im, l0, mn, w);
    CollectPlaces(w, y, t, im, l0, Place(y, 64 * im + l0), Place(w.quant, 64 * im + l0),
                  Place(y, 64 * im + l0 + 1), Place(w.quant, 64 * im + l0 + 1));
    v := x.d * Dot4(s, sc) - x.dmin * smin;
  }

  // ---------------------------------------------------------------- all work-items, one block

  lemma {:induction false} QuadSum(f: int -> real, g: int -> real, m: nat)
    requires forall i :: 0 <= i < m ==> g(i) == Two(f, 4 * i) + Two(f, 4 * i + 2)
    ensures Sum(g, 0, m) == Sum(f, 0, 4 * m)
  {
    if m > 0 {
      QuadSum(f, g, m - 1);
      var k := 4 * m;
      assert Sum(f, 0, k - 2) == Sum(f, 0, k - 4) + f(k - 4) + f(k - 3);
      assert Sum(f, 0, k) == Sum(f, 0, k - 2) + f(k - 2) + f(k - 1);
    }
  }

  /** `items` lists the shares; stated so that sums over it are not unfolded into columns. */
  ghost predicate IsItems(t: int -> real, items: int -> real) {
    forall tid: nat {:trigger Item(t, tid)} :: items(tid) == Item(t, tid)
  }

  ghost predicate IsFour(t: int -> real, im: nat, u: int -> real) {
    forall k {:trigger Four(t, im)(k)} :: u(k) == Four(t, im)(k)
  }

  /** Work-item `16 * im + 8 * in_ + ir` reads at the offsets `4 * ir + 2 * in_` and the next one. */
  lemma ItemAt(t: int -> real, items: int -> real, u: int -> real, im: nat, in_: nat, ir: nat)
    requires in_ < 2 && ir < 8 && IsItems(t, items) && IsFour(t, im, u)
    ensures items(16 * im + 8 * in_ + ir) == Two(u, 4 * ir + 2 * in_)
  {
    var tid := 16 * im + 8 * in_ + ir;
    assert tid / 16 == im && tid / 8 == 2 * im + in_ && tid % 8 == ir && (2 * im + in_) % 2 == in_;
    assert items(tid) == Item(t, tid);
  }

  lemma HalfSum(items: int -> real, u: int -> real, g: int -> real, a: int, e: nat)
    requires forall i :: 0 <= i < e ==> g(i) == items(a + i) + items(a + e + i)
    requires forall i :: 0 <= i < e ==> g(i) == Two(u, 4 * i) + Two(u, 4 * i + 2)
    ensures Sum(items, a, e + e) == Sum(u, 0, 4 * e)
  {
    HalvesFromZero(items, g, e, a);
    QuadSum(u, g, e);
  }

  lemma FourSum(t: int -> real, u: int -> real, g: int -> real, h: int -> real, a: int, b: int, n: nat)
    requires forall k :: 0 <= k < n ==> g(k) == t(a + k) + t(a + n + k)
    requires forall k :: 0 <= k < n ==> h(k) == t(b + k) + t(b + n + k)
    requires forall k :: 0 <= k < n ==> u(k) == g(k) + h(k)
    ensures Sum(u, 0, n) == Sum(t, a, n + n) + Sum(t, b, n + n)
  {
    HalvesFromZero(t, g, n, a);
    HalvesFromZero(t, h, n, b);
    SumAdd(g, h, u, 0, n);
  }

  /** The sixteen work-items of half `im` cover its 32 offsets; `e` is 8. */
  lemma HalfCovers(t: int -> real, items: int -> real, u: int -> real, im: nat, e: nat)
    requires e == 8 && IsItems(t, items) && IsFour(t, im, u)
    ensures Sum(items, 16 * im, e + e) == Sum(u, 0, 4 * e)
  {
    var a := 16 * im;
    var g := i => items(a + i) + items(a + e + i);
    forall i | 0 <= i < e ensures g(i) == Two(u, 4 * i) + Two(u, 4 * i + 2) {
      ItemAt(t, items, u, im, 0, i);
      ItemAt(t, items, u, im, 1, i);
    }
    HalfSum(items, u, g, a, e);
  }

  lemma FourAt(t: int -> real, u: int -> real, im: nat, k: int, a: int, b: int, n: nat)
    requires n == 32 && a == 64 * im && b == a + 128 && IsFour(t, im, u)
    ensures u(k) == t(a + k) + t(a + n + k) + (t(b + k) + t(b + n + k))
  {
    assert u(k) == Four(t, im)(k);
  }

  /** The offsets of half `im` stand for two runs of 64 columns, from `a` and `b` on; `n` is 32. */
  lemma OffsetsCover(t: int -> real, u: int -> real, im: nat, a: int, b: int, n: nat)
    requires n == 32 && a == 64 * im && b == a + 128 && IsFour(t, im, u)
    ensures Sum(u, 0, n) == Sum(t, a, n + n) + Sum(t, b, n + n)
  {
    var g, h := k => t(a + k) + t(a + n + k), k => t(b + k) + t(b + n + k);
    forall k | 0 <= k < n ensures u(k) == g(k) + h(k) {
      FourAt(t, u, im, k, a, b, n);
    }
    FourSum(t, u, g, h, a, b, n);
  }

  /** Two halves of the work-items, each covering two runs of columns, cover all of them. */
  lemma CoverSum(items: int -> real, t: int -> real, m: nat, n: nat)
    requires Sum(items, 0, m) == Sum(t, 0, n) + Sum(t, n + n, n)
    requires Sum(items, m, m) == Sum(t, n, n) + Sum(t, n + n + n, n)
    ensures Sum(items, 0, m + m) == Sum(t, 0, n + n + n + n)
  {
    SumSplit(items, 0, m, m);
    SumSplit(t, 0, n, n);
    SumSplit(t, 0, n + n, n);
    SumSplit(t, 0, n + n + n, n);
  }

  lemma LowHalf(t: int -> real, items: int -> real, u: int -> real, e: nat, m: nat, n: nat)
    requires e == 8 && m == 16 && n == 64 && IsItems(t, items) && IsFour(t, 0, u)
    ensures Sum(items, 0, m) == Sum(t, 0, n) + Sum(t, n + n, n)
  {
    HalfCovers(t, items, u, 0, e);
    OffsetsCover(t, u, 0, 0, n + n, 4 * e);
  }

  lemma HighHalf(t: int -> real, items: int -> real, u: int -> real, e: nat, m: nat, n: nat)
    requires e == 8 && m == 16 && n == 64 && IsItems(t, items) && IsFour(t, 1, u)
    ensures Sum(items, m, m) == Sum(t, n, n) + Sum(t, n + n + n, n)
  {
    HalfCovers(t, items, u, 1, e);
    OffsetsCover(t, u, 1, n, n + n + n, 4 * e);
  }

  /** The 32 work-items cover the 256 columns of a block once each. */
  lemma ItemsCoverBlock(t: int -> real, items: int -> real, e: nat, m: nat, n: nat)
    requires e == 8 && m == 16 && n == 64 && IsItems(t, items)
    ensures Sum(items, 0, m + m) == Sum(t, 0, n + n + n + n)
  {
    LowHalf(t, items, Four(t, 0), e, m, n);
    HighHalf(t, items, Four(t, 1), e, m, n);
    CoverSum(items, t, m, n);
  }

  // ---------------------------------------------------------------- a whole row

  /** The `nb` blocks from `ib0` on, decoded. */
  function DecodeRow(x: seq<Block>, ib0: nat, nb: nat): (ws: seq<Decoded>)
    requires ib0 + nb <= |x| && forall i :: ib0 <= i < ib0 + nb ==> x[i].Valid()
    ensures |ws| == nb && DecodesRow(x, ib0, ws)
  {
    var ws := seq(nb, i requires 0 <= i < nb => Decode(x[ib0 + i]));
    assert forall i :: 0 <= i < nb ==> ws[i] == Decode(x[ib0 + i]);
    ws
  }

  ghost predicate DecodesRow(x: seq<Block>, ib0: nat, ws: seq<Decoded>) {
    ib0 + |ws| <= |x| && forall i :: 0 <= i < |ws| ==> DecodesTo(x[ib0 + i], ws[i])
  }

  /** A row of decoded blocks and a vector of the same length. */
  ghost predicate FitRow(ws: seq<Decoded>, y: seq<real>) {
    |y| == 256 * |ws| && forall i :: 0 <= i < |ws| ==> ws[i].Valid()
  }

  /** The term of column `c` of block `i` of the row in its dot product with the vector. */
  ghost function RowTerm(ws: seq<Decoded>, y: seq<real>, i: nat, c: nat): real
    requires FitRow(ws, y) && i < |ws| && c < 256
  {
    ws[i].Value(c) * y[256 * i + c]
  }

  /** The terms of the dot product. */
  ghost function RowTerms(ws: seq<Decoded>, y: seq<real>): int -> real
    requires FitRow(ws, y)
  {
    c => if 0 <= c < |y| then RowTerm(ws, y, c / 256, c % 256) else 0.0
  }

  /** Block `i` of the terms. */
  ghost function BlockOf(f: int -> real, i: int): int -> real {
    c => f(256 * i + c)
  }

  /** What each work-item adds for each block. */
  ghost function Shares(f: int -> real): (int, int) -> real {
    (tid, i) => if tid >= 0 && i >= 0 then Item(BlockOf(f, i), tid) else 0.0
  }

  /** `f` gives the terms. Here and below a predicate keeps sums over terms from being unfolded into columns. */
  ghost predicate IsRow(ws: seq<Decoded>, y: seq<real>, f: int -> real)
    requires FitRow(ws, y)
  {
    forall i: nat, c: nat {:trigger RowTerm(ws, y, i, c)} :: i < |ws| && c < 256 ==>
      f(256 * i + c) == RowTerm(ws, y, i, c)
  }

  /** `shares` lists what each work-item adds for each block. */
  ghost predicate IsShares(f: int -> real, shares: (int, int) -> real) {
    forall tid: nat, i: nat {:trigger Item(BlockOf(f, i), tid)} :: shares(tid, i) == Item(BlockOf(f, i), tid)
  }

  lemma RowTermsIsRow(ws: seq<Decoded>, y: seq<real>)
    requires FitRow(ws, y)
    ensures IsRow(ws, y, RowTerms(ws, y))
  {
    forall i: nat, c: nat | i < |ws| && c < 256 ensures RowTerms(ws, y)(256 * i + c) == RowTerm(ws, y, i, c) {
      assert (256 * i + c) / 256 == i && (256 * i + c) % 256 == c && 256 * i + c < |y|;
    }
  }

  lemma BlockTermsOf(ws: seq<Decoded>, y: seq<real>, f: int -> real, i: nat)
    requires FitRow(ws, y) && IsRow(ws, y, f) && i < |ws|
    ensures TermsOf(ws[i], y[256 * i..256 * i + 256], BlockOf(f, i))
  {
    forall c | 0 <= c < 256 ensures BlockOf(f, i)(c) == ws[i].Value(c) * y[256 * i..256 * i + 256][c] {
      assert BlockOf(f, i)(c) == RowTerm(ws, y, i, c);
    }
  }

  lemma {:induction false} BlocksAreRow(f: int -> real, g: int -> real, columns: nat, nb: nat)
    requires columns == 256 && forall i :: 0 <= i < nb ==> g(i) == Sum(f, 256 * i, columns)
    ensures Sum(g, 0, nb) == Sum(f, 0, 256 * nb)
  {
    if nb > 0 {
      BlocksAreRow(f, g, columns, nb - 1);
      SumSplit(f, 0, 256 * (nb - 1), columns);
    }
  }

  lemma ColumnIsItems(f: int -> real, shares: (int, int) -> real, i: nat)
    requires IsShares(f, shares)
    ensures IsItems(BlockOf(f, i), Column(shares, i))
  {
  }

  lemma BlockShares(f: int -> real, t: int -> real, items: int -> real, i: nat, m: nat, n: nat)
    requires m == 16 && n == 64 && t == BlockOf(f, i) && IsItems(t, items)
    ensures Sum(items, 0, m + m) == Sum(f, 256 * i, n + n + n + n)
  {
    ItemsCoverBlock(t, items, 8, m, n);
    SumSame(t, f, 0, 256 * i, n + n + n + n);
  }

  /** The shares of all work-items in all blocks add up to the row. */
  lemma SharesAreRow(f: int -> real, shares: (int, int) -> real, nb: nat, m: nat, n: nat)
    requires m == 16 && n == 64 && IsShares(f, shares)
    ensures Sum(RowSums(shares, nb), 0, m + m) == Sum(f, 0, 256 * nb)
  {
    SumSwap(shares, m + m, nb);
    forall i | 0 <= i < nb ensures ColumnSums(shares, m + m)(i) == Sum(f, 256 * i, n + n + n + n) {
      ColumnIsItems(f, shares, i);
      BlockShares(f, BlockOf(f, i), Column(shares, i), i, m, n);
    }
    BlocksAreRow(f, ColumnSums(shares, m + m), n + n + n + n, nb);
  }

  /** What one work-item adds for block `i` of the row. */
  method BlockShare(x: seq<Block>, ib0: nat, y: seq<real>, i: nat, tid: nat, ghost ws: seq<Decoded>,
                    ghost f: int -> real, ghost shares: (int, int) -> real)
    returns (v: real)
    requires FitRow(ws, y) && IsRow(ws, y, f) && IsShares(f, shares)
    requires DecodesRow(x, ib0, ws)
    requires tid < 32 && i < |ws|
    ensures v == Row(shares, tid)(i)
  {
    BlockTermsOf(ws, y, f, i);
    v := BlockItem(x[ib0 + i], y[256 * i..256 * i + 256], tid, ws[i], BlockOf(f, i));
  }

  /** One work-item over all blocks of the row. */
  method WorkItem(x: seq<Block>, ib0: nat, y: seq<real>, tid: nat, tmp: array<real>, ghost ws: seq<Decoded>,
                  ghost f: int -> real, ghost shares: (int, int) -> real)
    requires FitRow(ws, y) && IsRow(ws, y, f) && IsShares(f, shares)
    requires DecodesRow(x, ib0, ws)
    requires tid < 32 == tmp.Length
    modifies tmp
    ensures tmp[tid] == Sum(Row(shares, tid), 0, |ws|)
    ensures forall t :: 0 <= t < tmp.Length && t != tid ==> tmp[t] == old(tmp[t])
  {
    tmp[tid] := 0.0;
    assert |y| / 256 == |ws|;
    for i := 0 to |y| / 256
      invariant tmp[tid] == Sum(Row(shares, tid), 0, i)
      invariant forall t :: 0 <= t < tmp.Length && t != tid ==> tmp[t] == old(tmp[t])
    {
      var v := BlockShare(x, ib0, y, i, tid, ws, f, shares);
      tmp[tid] := tmp[tid] + v;
    }
  }

  method WorkGroup(x: seq<Block>, ib0: nat, y: seq<real>, ghost ws: seq<Decoded>, ghost f: int -> real,
                   ghost shares: (int, int) -> real)
    returns (dst: real)
    requires FitRow(ws, y) && IsRow(ws, y, f) && IsShares(f, shares)
    requires DecodesRow(x, ib0, ws)
    ensures dst == Sum(f, 0, |y|)
  {
    var tmp := new real[32];
    for tid := 0 to 32
      invariant forall t :: 0 <= t < tid ==> tmp[t] == RowSums(shares, |ws|)(t)
    {
      WorkItem(x, ib0, y, tid, tmp, ws, f, shares);
    }
    TotalIsSum(tmp[..], RowSums(shares, |ws|));
    SharesAreRow(f, shares, |ws|, 16, 64);
    Reduce(tmp);
    dst := tmp[0];
  }

  /**
   dequantize_mul_mat_vec_q4_K for the row of `nb` blocks from `ib0` on: 32 work-items, then the reduction. The result
   is the dot product of the vector with the decoded row, whose values are those that dequantize_block_q4_K writes.
   */
  method MatVecRow(x: seq<Block>, ib0: nat, nb: nat, y: seq<real>) returns (dst: real)
    requires ib0 + nb <= |x| && |y| == 256 * nb && forall i :: ib0 <= i < ib0 + nb ==> x[i].Valid()
    ensures dst == Sum(RowTerms(DecodeRow(x, ib0, nb), y), 0, |y|)
  {
    ghost var ws := DecodeRow(x, ib0, nb);
    RowTermsIsRow(ws, y);
    dst := WorkGroup(x, ib0, y, ws, RowTerms(ws, y), Shares(RowTerms(ws, y)));
  }

  // ---------------------------------------------------------------- the terms, from the bytes alone

  /** The scale of group `g` as a number. */
  ghost function ScaleOf(q: seq<bv8>, g: nat): int
    requires g < 8 && |q| == 12
  {
    if g < 4 then q[g] as int % 64 else q[g + 4] as int % 16 + 16 * (q[g - 4] as int / 64)
  }

  /** The minimum of group `g` as a number. */
  ghost function MinimumOf(q: seq<bv8>, g: nat): int
    requires g < 8 && |q| == 12
  {
    if g < 4 then q[g + 4] as int % 64 else q[g + 4] as int / 16 + 16 * (q[g] as int / 64)
  }

  /** The four bits of column `r` of group `g` as a number. */
  ghost function QuantOf(qs: seq<bv8>, g: nat, r: nat): int
    requires g < 8 && r < 32 && |qs| == 128
  {
    if g % 2 == 0 then qs[32 * (g / 2) + r] as int % 16 else qs[32 * (g / 2) + r] as int / 16
  }

  lemma ScaleIs(q: seq<bv8>, g: nat)
    requires g < 8 && |q| == 12
    ensures Real(Scale(g, q)) == ScaleOf(q, g) as real
  {
    if g < 4 {
      SixBitsIs(q[g]);
    } else {
      JoinedParts(q[g + 4], q[g - 4]);
    }
  }

  lemma MinimumIs(q: seq<bv8>, g: nat)
    requires g < 8 && |q| == 12
    ensures Real(Minimum(g, q)) == MinimumOf(q, g) as real
  {
    if g < 4 {
      SixBitsIs(q[g + 4]);
    } else {
      JoinedParts(q[g + 4], q[g]);
    }
  }

  lemma QuantIs(x: Block, g: nat, r: nat)
    requires x.Valid() && g < 8 && r < 32
    ensures Real(Quant(x, 32 * g + r)) == QuantOf(x.qs, g, r) as real
  {
    QuantAt(x, g / 2, r);
    PartsOfByte(x.qs[32 * (g / 2) + r]);
    assert 32 * g + r == 64 * (g / 2) + r || 32 * g + r == 64 * (g / 2) + r + 32;
  }

  lemma DecodedAt(x: Block, w: Decoded, g: nat, c: nat)
    requires DecodesTo(x, w) && g < 8 && c < 256
    ensures w.d == x.d && w.dmin == x.dmin
    ensures w.scale[g] == Real(Scale(g, x.scales)) && w.minimum[g] == Real(Minimum(g, x.scales))
    ensures w.quant[c] == Real(Quant(x, c))
  {
  }

  /** The numbers of the decoded row: those of column `r` of group `g` of block `i`, worked out from its bytes. */
  lemma NumbersAre(x: seq<Block>, ib0: nat, nb: nat, i: nat, g: nat, r: nat)
    requires ib0 + nb <= |x| && forall k :: ib0 <= k < ib0 + nb ==> x[k].Valid()
    requires i < nb && g < 8 && r < 32
    ensures var b, w := x[ib0 + i], DecodeRow(x, ib0, nb)[i];
            && w.d == b.d && w.dmin == b.dmin
            && w.scale[g] == ScaleOf(b.scales, g) as real && w.minimum[g] == MinimumOf(b.scales, g) as real
            && w.quant[32 * g + r] == QuantOf(b.qs, g, r) as real
  {
    var b := x[ib0 + i];
    DecodedAt(b, DecodeRow(x, ib0, nb)[i], g, 32 * g + r);
    ScaleIs(b.scales, g);
    MinimumIs(b.scales, g);
    QuantIs(b, g, r);
  }

  lemma ValueAt(w: Decoded, g: nat, c: nat)
    requires w.Valid() && g < 8 && 32 * g <= c < 32 * g + 32
    ensures w.Value(c) == w.d * w.scale[g] * w.quant[c] - w.dmin * w.minimum[g]
  {
    assert c / 32 == g;
  }

  lemma RowTermAt(ws: seq<Decoded>, y: seq<real>, i: nat, c: nat)
    requires FitRow(ws, y) && i < |ws| && c < 256
    ensures 256 * i + c < |y| && RowTerms(ws, y)(256 * i + c) == RowTerm(ws, y, i, c)
  {
    RowTermsIsRow(ws, y);
  }

  lemma RowTermFrom(ws: seq<Decoded>, y: seq<real>, i: nat, g: nat, c: nat)
    requires FitRow(ws, y) && i < |ws| && g < 8 && 32 * g <= c < 32 * g + 32
    ensures var w := ws[i];
            RowTerm(ws, y, i, c) == (w.d * w.scale[g] * w.quant[c] - w.dmin * w.minimum[g]) * y[256 * i + c]
  {
    ValueAt(ws[i], g, c);
  }

  /** The terms of the dot product: scale times quant less minimum, times the entry of the vector. */
  lemma TermIs(ws: seq<Decoded>, y: seq<real>, i: nat, g: nat, r: nat)
    requires FitRow(ws, y) && i < |ws| && g < 8 && r < 32
    ensures var w, c := ws[i], 256 * i + (32 * g + r);
            && c < |y|
            && RowTerms(ws, y)(c) == (w.d * w.scale[g] * w.quant[32 * g + r] - w.dmin * w.minimum[g]) * y[c]
  {
    RowTermAt(ws, y, i, 32 * g + r);
    RowTermFrom(ws, y, i, g, 32 * g + r);
  }
}
