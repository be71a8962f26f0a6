/** The base64 codec: RFC 4648, section 4 (standard alphabet) and section 5 (URL and filename safe). */
module Base64 {
  type Byte = bv8

  datatype Alphabet = Auto | Standard | UrlSafe

  datatype Result<T> = Ok(value: T) | InvalidCharacter

  const PAD: Byte := 0x3D // '='

  // ---------------------------------------------------------------- bits

  type Bits = seq<bool>

  /** The bits of a byte, the most significant first. */
  function Bits8(b: Byte): (r: Bits)
    ensures |r| == 8
  {
    [b & 0x80 != 0, b & 0x40 != 0, b & 0x20 != 0, b & 0x10 != 0, b & 8 != 0, b & 4 != 0, b & 2 != 0, b & 1 != 0]
  }

  /** The six bits a character stands for. */
  function Bits6(v: Byte): (r: Bits)
    ensures |r| == 6
  {
    [v & 0x20 != 0, v & 0x10 != 0, v & 8 != 0, v & 4 != 0, v & 2 != 0, v & 1 != 0]
  }

  function ToByte(bits: Bits): Byte
    requires |bits| == 8
  {
    (if bits[0] then 0x80 else 0) | (if bits[1] then 0x40 else 0) | ToSix(bits[2..])
  }

  function ToSix(bits: Bits): Byte
    requires |bits| == 6
  {
    (if bits[0] then 0x20 else 0) | (if bits[1] then 0x10 else 0) | (if bits[2] then 8 else 0)
    | (if bits[3] then 4 else 0) | (if bits[4] then 2 else 0) | (if bits[5] then 1 else 0)
  }

  lemma ToByteOfBits(b: Byte)
    ensures ToByte(Bits8(b)) == b
  {
  }

  lemma ToSixOfBits(v: Byte)
    requires v < 64
    ensures ToSix(Bits6(v)) == v
  {
  }

  lemma BitsOfToSix(bits: Bits)
    requires |bits| == 6
    ensures ToSix(bits) < 64 && Bits6(ToSix(bits)) == bits
  {
  }

  /** The bits of each element, one after the other. */
  function Flat(f: Byte -> Bits, xs: seq<Byte>): Bits {
    if xs == [] then [] else f(xs[0]) + Flat(f, xs[1..])
  }

  function ByteBits(bytes: seq<Byte>): Bits {
    Flat(Bits8, bytes)
  }

  function SixBits(values: seq<Byte>): Bits {
    Flat(Bits6, values)
  }

  /** The bits eight by eight; what is left over is dropped. */
  function BytesOf(bits: Bits): seq<Byte> {
    if |bits| < 8 then [] else [ToByte(bits[..8])] + BytesOf(bits[8..])
  }

  /** The bits six by six, the last group filled up with zeros. */
  function SixesOf(bits: Bits): seq<Byte> {
    if bits == [] then []
    else if |bits| < 6 then [ToSix(bits + Zeros(6 - |bits|))]
    else [ToSix(bits[..6])] + SixesOf(bits[6..])
  }

  function Zeros(n: nat): (r: Bits)
    ensures |r| == n
  {
    seq(n, _ => false)
  }

  lemma {:induction false} FlatLength(f: Byte -> Bits, xs: seq<Byte>, w: nat)
    requires forall b :: |f(b)| == w
    ensures |Flat(f, xs)| == w * |xs|
  {
    if xs != [] {
      FlatLength(f, xs[1..], w);
      assert w * |xs| == w + w * (|xs| - 1);
    }
  }

  lemma {:induction false} FlatJoin(f: Byte -> Bits, a: seq<Byte>, b: seq<Byte>)
    ensures Flat(f, a + b) == Flat(f, a) + Flat(f, b)
  {
    if a == [] {
      assert a + b == b;
    } else {
      assert (a + b)[1..] == a[1..] + b;
      FlatJoin(f, a[1..], b);
    }
  }

  lemma FlatOne(f: Byte -> Bits, x: Byte)
    ensures Flat(f, [x]) == f(x)
  {
    assert Flat(f, [x]) == f(x) + [];
  }

  lemma FlatThree(f: Byte -> Bits, x: seq<Byte>)
    requires |x| >= 3
    ensures Flat(f, x) == f(x[0]) + f(x[1]) + f(x[2]) + Flat(f, x[3..])
  {
    var y, z, rest := x[1..], x[2..], x[3..];
    assert y[0] == x[1] && z[0] == x[2] && y[1..] == z && z[1..] == rest;
    Assoc(f(x[0]), f(y[0]), f(z[0]), Flat(f, rest));
  }

  lemma Assoc(a: Bits, b: Bits, c: Bits, d: Bits)
    ensures a + (b + (c + d)) == a + b + c + d
  {
  }

  lemma {:induction false} BytesOfByteBits(bytes: seq<Byte>, rest: Bits)
    requires |rest| < 8
    ensures BytesOf(ByteBits(bytes) + rest) == bytes
  {
    if bytes != [] {
      var bits := ByteBits(bytes) + rest;
      assert bits[..8] == Bits8(bytes[0]) && bits[8..] == ByteBits(bytes[1..]) + rest;
      ToByteOfBits(bytes[0]);
      BytesOfByteBits(bytes[1..], rest);
    }
  }

  /** Bits followed by fewer than six zeros. */
  ghost predicate Filled(all: Bits, bits: Bits) {
    exists n: nat :: n < 6 && all == bits + Zeros(n)
  }

  lemma SixesFirst(bits: Bits)
    requires |bits| >= 6
    ensures SixBits(SixesOf(bits)) == bits[..6] + SixBits(SixesOf(bits[6..]))
  {
    BitsOfToSix(bits[..6]);
    assert SixesOf(bits)[1..] == SixesOf(bits[6..]);
  }

  lemma FilledFirst(first: Bits, all: Bits, bits: Bits)
    requires Filled(all, bits)
    ensures Filled(first + all, first + bits)
  {
    var n: nat :| n < 6 && all == bits + Zeros(n);
    AssocBits(first, bits, Zeros(n));
  }

  lemma AssocBits(a: Bits, b: Bits, c: Bits)
    ensures a + b + c == a + (b + c)
  {
  }

  /** Cutting into sixes keeps the bits and adds less than one group of zeros. */
  lemma {:induction false} SixBitsOfSixes(bits: Bits)
    ensures Filled(SixBits(SixesOf(bits)), bits)
  {
    if bits == [] {
      assert [] == bits + Zeros(0);
    } else if |bits| < 6 {
      var full := bits + Zeros(6 - |bits|);
      BitsOfToSix(full);
      FlatOne(Bits6, ToSix(full));
    } else {
      SixesFirst(bits);
      SixBitsOfSixes(bits[6..]);
      FilledFirst(bits[..6], SixBits(SixesOf(bits[6..])), bits[6..]);
      assert bits[..6] + bits[6..] == bits;
    }
  }

  // ---------------------------------------------------------------- characters

  /** The character of six bits: A-Z, a-z, 0-9, then + and /, or - and _ in the URL-safe alphabet. */
  function Symbol(v: Byte, alphabet: Alphabet): Byte {
    if v < 26 then 0x41 + v
    else if v < 52 then 0x61 + (v - 26)
    else if v < 62 then 0x30 + (v - 52)
    else if v == 62 then (if alphabet == UrlSafe then 0x2D else 0x2B)
    else (if alphabet == UrlSafe then 0x5F else 0x2F)
  }

  /** _base64_value: the six bits of a character, and the alphabet from then on. */
  function Value(alphabet: Alphabet, c: Byte): (r: Result<(Byte, Alphabet)>)
    ensures r.Ok? ==> r.value.0 < 64
  {
    if 0x41 <= c <= 0x5A then Ok((c - 0x41, alphabet))
    else if 0x61 <= c <= 0x7A then Ok((c - 0x61 + 26, alphabet))
    else if 0x30 <= c <= 0x39 then Ok((c - 0x30 + 52, alphabet))
    else if alphabet != UrlSafe && c == 0x2B then Ok((62, Standard))
    else if alphabet != UrlSafe && c == 0x2F then Ok((63, Standard))
    else if alphabet != Standard && c == 0x2D then Ok((62, UrlSafe))
    else if alphabet != Standard && c == 0x5F then Ok((63, UrlSafe))
    else InvalidCharacter
  }

  lemma ValueOfSymbol(v: Byte, alphabet: Alphabet)
    requires v < 64
    ensures Symbol(v, alphabet) != PAD
    ensures alphabet != Auto ==> Value(alphabet, Symbol(v, alphabet)) == Ok((v, alphabet))
  {
  }

  function Symbols(values: seq<Byte>, alphabet: Alphabet): (r: seq<Byte>)
    ensures |r| == |values|
  {
    seq(|values|, i requires 0 <= i < |values| => Symbol(values[i], alphabet))
  }

  /** The values of characters, under an alphabet that may be settled on the way. */
  function Values(alphabet: Alphabet, s: seq<Byte>): (r: Result<seq<Byte>>)
    ensures r.Ok? ==> |r.value| == |s|
    decreases |s|
  {
    if s == [] then Ok([])
    else
      match Value(alphabet, s[0])
      case InvalidCharacter => InvalidCharacter
      case Ok((v, next)) =>
        match Values(next, s[1..])
        case InvalidCharacter => InvalidCharacter
        case Ok(vs) => Ok([v] + vs)
  }

  // ---------------------------------------------------------------- what encoding and decoding mean

  /** The number of padding characters after the encoding of `n` bytes. */
  function Padding(n: nat): nat {
    if n % 3 == 0 then 0 else 3 - n % 3
  }

  function Pads(n: nat): (r: seq<Byte>)
    ensures |r| == n
  {
    seq(n, _ => PAD)
  }

  function Encoded(bytes: seq<Byte>, alphabet: Alphabet): seq<Byte> {
    Symbols(SixesOf(ByteBits(bytes)), alphabet) + Pads(Padding(|bytes|))
  }

  /** The characters before the first padding character. */
  function Body(s: seq<Byte>): (r: seq<Byte>)
    ensures |r| <= |s|
  {
    if s == [] || s[0] == PAD then [] else [s[0]] + Body(s[1..])
  }

  predicate AllPads(s: seq<Byte>) {
    forall i :: 0 <= i < |s| ==> s[i] == PAD
  }

  /** Decoding; unless `loose`, nothing but padding may follow padding. */
  function Decoded(s: seq<Byte>, alphabet: Alphabet, loose: bool): Result<seq<Byte>> {
    match Values(alphabet, Body(s))
    case InvalidCharacter => InvalidCharacter
    case Ok(values) =>
      if loose || AllPads(s[|Body(s)|..]) then Ok(BytesOf(SixBits(values))) else InvalidCharacter
  }

  function RequiredEncodeSize(size: nat): nat {
    (size / 3 + if size % 3 != 0 then 1 else 0) * 4
  }

  function MaxDecodeSize(size: nat): nat {
    (size / 4 + if size % 4 != 0 then 1 else 0) * 3
  }

  // ---------------------------------------------------------------- encode

  /** The six bits that encode takes from one byte or two neighbours. */
  function Six1(a: Byte): Byte {
    (a >> 2) & 0x3f
  }

  function Six2(a: Byte, b: Byte): Byte {
    ((a & 3) << 4) | ((b >> 4) & 0x0f)
  }

  function Six3(b: Byte, c: Byte): Byte {
    ((b & 0x0f) << 2) | ((c >> 6) & 3)
  }

  function Six4(c: Byte): Byte {
    c & 0x3f
  }

  lemma SixBounds(a: Byte, b: Byte)
    ensures Six1(a) < 64 && Six2(a, b) < 64 && Six3(a, b) < 64 && Six4(a) < 64
  {
  }

  lemma Six1Bits(a: Byte)
    ensures Bits6(Six1(a)) == Bits8(a)[..6]
  {
    var v, p := Six1(a), Bits8(a);
    assert p[..6] == [p[0], p[1], p[2], p[3], p[4], p[5]];
    assert (v & 0x20 != 0) == (a & 0x80 != 0) && (v & 0x10 != 0) == (a & 0x40 != 0);
    assert (v & 8 != 0) == (a & 0x20 != 0) && (v & 4 != 0) == (a & 0x10 != 0);
    assert (v & 2 != 0) == (a & 8 != 0) && (v & 1 != 0) == (a & 4 != 0);
  }

  lemma Six2Bits(a: Byte, b: Byte)
    ensures Bits6(Six2(a, b)) == Bits8(a)[6..] + Bits8(b)[..4]
  {
    var v, p, q := Six2(a, b), Bits8(a), Bits8(b);
    Ends(p, q);
    assert (v & 0x20 != 0) == (a & 2 != 0) && (v & 0x10 != 0) == (a & 1 != 0);
    assert (v & 8 != 0) == (b & 0x80 != 0) && (v & 4 != 0) == (b & 0x40 != 0);
    assert (v & 2 != 0) == (b & 0x20 != 0) && (v & 1 != 0) == (b & 0x10 != 0);
  }

  lemma Six3Bits(b: Byte, c: Byte)
    ensures Bits6(Six3(b, c)) == Bits8(b)[4..] + Bits8(c)[..2]
  {
    var v, p, q := Six3(b, c), Bits8(b), Bits8(c);
    Ends(p, q);
    assert (v & 0x20 != 0) == (b & 8 != 0) && (v & 0x10 != 0) == (b & 4 != 0);
    assert (v & 8 != 0) == (b & 2 != 0) && (v & 4 != 0) == (b & 1 != 0);
    assert (v & 2 != 0) == (c & 0x80 != 0) && (v & 1 != 0) == (c & 0x40 != 0);
  }

  lemma Six4Bits(c: Byte)
    ensures Bits6(Six4(c)) == Bits8(c)[2..]
  {
    var v, p := Six4(c), Bits8(c);
    assert p[2..] == [p[2], p[3], p[4], p[5], p[6], p[7]];
    assert (v & 0x20 != 0) == (c & 0x20 != 0) && (v & 0x10 != 0) == (c & 0x10 != 0);
    assert (v & 8 != 0) == (c & 8 != 0) && (v & 4 != 0) == (c & 4 != 0);
    assert (v & 2 != 0) == (c & 2 != 0) && (v & 1 != 0) == (c & 1 != 0);
  }

  lemma Ends(p: Bits, q: Bits)
    requires |p| == |q| == 8
    ensures p[6..] + q[..4] == [p[6], p[7], q[0], q[1], q[2], q[3]]
    ensures p[4..] + q[..2] == [p[4], p[5], p[6], p[7], q[0], q[1]]
  {
  }

  /** The bits of three bytes, cut another way. */
  lemma Cut(a: Bits, b: Bits, c: Bits)
    requires |a| == |b| == |c| == 8
    ensures a + b + c == a[..6] + (a[6..] + b[..4]) + (b[4..] + c[..2]) + c[2..]
  {
  }

  lemma Regroup(a: Byte, b: Byte, c: Byte)
    ensures Bits8(a) + Bits8(b) + Bits8(c)
         == Bits6(Six1(a)) + Bits6(Six2(a, b)) + Bits6(Six3(b, c)) + Bits6(Six4(c))
  {
    Six1Bits(a);
    Six2Bits(a, b);
    Six3Bits(b, c);
    Six4Bits(c);
    Cut(Bits8(a), Bits8(b), Bits8(c));
  }

  lemma SixFirst(v: Byte, rest: Bits)
    requires v < 64
    ensures SixesOf(Bits6(v) + rest) == [v] + SixesOf(rest)
  {
    ToSixOfBits(v);
    assert (Bits6(v) + rest)[..6] == Bits6(v) && (Bits6(v) + rest)[6..] == rest;
  }

  lemma FourSixes(v1: Byte, v2: Byte, v3: Byte, v4: Byte, rest: Bits)
    requires v1 < 64 && v2 < 64 && v3 < 64 && v4 < 64
    ensures SixesOf(Bits6(v1) + (Bits6(v2) + (Bits6(v3) + (Bits6(v4) + rest)))) == [v1, v2, v3, v4] + SixesOf(rest)
  {
    SixFirst(v4, rest);
    SixFirst(v3, Bits6(v4) + rest);
    SixFirst(v2, Bits6(v3) + (Bits6(v4) + rest));
    SixFirst(v1, Bits6(v2) + (Bits6(v3) + (Bits6(v4) + rest)));
  }

  lemma AssocFive(a: Bits, b: Bits, c: Bits, d: Bits, e: Bits)
    ensures a + b + c + d + e == a + (b + (c + (d + e)))
  {
  }

  /** The four characters of three bytes. */
  lemma ThreeBytes(a: Byte, b: Byte, c: Byte, rest: Bits)
    ensures SixesOf(Bits8(a) + Bits8(b) + Bits8(c) + rest) == [Six1(a), Six2(a, b), Six3(b, c), Six4(c)] + SixesOf(rest)
  {
    SixBounds(a, b);
    SixBounds(b, c);
    SixBounds(c, c);
    Regroup(a, b, c);
    AssocFive(Bits6(Six1(a)), Bits6(Six2(a, b)), Bits6(Six3(b, c)), Bits6(Six4(c)), rest);
    FourSixes(Six1(a), Six2(a, b), Six3(b, c), Six4(c), rest);
  }

  lemma SixLast(bits: Bits, v: Byte)
    requires 0 < |bits| < 6 && v < 64 && bits + Zeros(6 - |bits|) == Bits6(v)
    ensures SixesOf(bits) == [v]
  {
    ToSixOfBits(v);
  }

  lemma LastBits(a: Byte)
    ensures Bits8(a)[6..] + Zeros(4) == Bits6(Six2(a, 0)) && Bits8(a)[4..] + Zeros(2) == Bits6(Six3(a, 0))
  {
  }

  lemma TwoBytes(a: Byte, b: Byte)
    ensures SixesOf(Bits8(a) + Bits8(b)) == [Six1(a), Six2(a, b), Six3(b, 0)]
  {
    Six1Bits(a);
    Six2Bits(a, b);
    SixBounds(a, b);
    SixBounds(b, 0);
    LastBits(b);
    SixLast(Bits8(b)[4..], Six3(b, 0));
    SixFirst(Six2(a, b), Bits8(b)[4..]);
    SixFirst(Six1(a), Bits6(Six2(a, b)) + Bits8(b)[4..]);
    assert Bits8(a) == Bits8(a)[..6] + Bits8(a)[6..] && Bits8(b) == Bits8(b)[..4] + Bits8(b)[4..];
    assert Bits8(a) + Bits8(b) == Bits6(Six1(a)) + (Bits6(Six2(a, b)) + Bits8(b)[4..]);
  }

  lemma OneByte(a: Byte)
    ensures SixesOf(Bits8(a)) == [Six1(a), Six2(a, 0)]
  {
    Six1Bits(a);
    SixBounds(a, 0);
    LastBits(a);
    SixLast(Bits8(a)[6..], Six2(a, 0));
    SixFirst(Six1(a), Bits8(a)[6..]);
    assert Bits8(a) == Bits6(Six1(a)) + Bits8(a)[6..];
  }

  lemma SymbolsJoin(a: seq<Byte>, b: seq<Byte>, alphabet: Alphabet)
    ensures Symbols(a + b, alphabet) == Symbols(a, alphabet) + Symbols(b, alphabet)
  {
  }

  lemma EncodedThree(x: seq<Byte>, alphabet: Alphabet)
    requires |x| >= 3
    ensures Encoded(x, alphabet)
         == Symbols([Six1(x[0]), Six2(x[0], x[1]), Six3(x[1], x[2]), Six4(x[2])], alphabet) + Encoded(x[3..], alphabet)
  {
    var rest := ByteBits(x[3..]);
    FlatThree(Bits8, x);
    ThreeBytes(x[0], x[1], x[2], rest);
    SymbolsJoin([Six1(x[0]), Six2(x[0], x[1]), Six3(x[1], x[2]), Six4(x[2])], SixesOf(rest), alphabet);
    assert Padding(|x[3..]|) == Padding(|x|);
  }

  lemma EncodedTwo(a: Byte, b: Byte, alphabet: Alphabet)
    ensures Encoded([a, b], alphabet) == Symbols([Six1(a), Six2(a, b), Six3(b, 0)], alphabet) + [PAD]
  {
    assert [a, b] == [a] + [b];
    FlatJoin(Bits8, [a], [b]);
    FlatOne(Bits8, a);
    FlatOne(Bits8, b);
    TwoBytes(a, b);
    assert Pads(1) == [PAD];
  }

  lemma EncodedOne(a: Byte, alphabet: Alphabet)
    ensures Encoded([a], alphabet) == Symbols([Six1(a), Six2(a, 0)], alphabet) + [PAD, PAD]
  {
    FlatOne(Bits8, a);
    OneByte(a);
    assert Pads(2) == [PAD, PAD];
  }

  lemma AssocBytes(a: seq<Byte>, b: seq<Byte>, c: seq<Byte>)
    ensures a + b + c == a + (b + c)
  {
  }

  lemma JoinSymbols(done: seq<Byte>, s1: Byte, s2: Byte, s3: Byte, s4: Byte, alphabet: Alphabet)
    ensures done + Symbols([s1], alphabet) + Symbols([s2], alphabet) == done + Symbols([s1, s2], alphabet)
    ensures done + Symbols([s1], alphabet) + Symbols([s2], alphabet) + Symbols([s3], alphabet)
         == done + Symbols([s1, s2, s3], alphabet)
    ensures done + Symbols([s1], alphabet) + Symbols([s2], alphabet) + Symbols([s3], alphabet) + Symbols([s4], alphabet)
         == done + Symbols([s1, s2, s3, s4], alphabet)
  {
    SymbolsJoin([s1], [s2], alphabet);
    SymbolsJoin([s1, s2], [s3], alphabet);
    SymbolsJoin([s1, s2, s3], [s4], alphabet);
    assert [s1] + [s2] == [s1, s2] && [s1, s2] + [s3] == [s1, s2, s3] && [s1, s2, s3] + [s4] == [s1, s2, s3, s4];
  }

  /** base64::encode */
  method Encode(x: seq<Byte>, alphabet: Alphabet) returns (out: seq<Byte>)
    ensures out == Encoded(x, alphabet)
  {
    out := [];
    var i := 0;
    assert x[0..] == x;
    while i < |x|
      invariant 0 <= i <= |x|
      invariant out + Encoded(x[i..], alphabet) == Encoded(x, alphabet)
    {
      ghost var done, left := out, x[i..];
      var i0 := x[i];
      i := i + 1;
      out := out + Symbols([Six1(i0)], alphabet);
      if i == |x| {
        assert left == [i0];
        EncodedOne(i0, alphabet);
        JoinSymbols(done, Six1(i0), Six2(i0, 0), 0, 0, alphabet);
        AssocBytes(done, Symbols([Six1(i0), Six2(i0, 0)], alphabet), [PAD, PAD]);
        out := out + Symbols([Six2(i0, 0)], alphabet) + [PAD, PAD];
        return;
      }
      var i1 := x[i];
      i := i + 1;
      out := out + Symbols([Six2(i0, i1)], alphabet);
      if i == |x| {
        assert left == [i0, i1];
        EncodedTwo(i0, i1, alphabet);
        JoinSymbols(done, Six1(i0), Six2(i0, i1), Six3(i1, 0), 0, alphabet);
        AssocBytes(done, Symbols([Six1(i0), Six2(i0, i1), Six3(i1, 0)], alphabet), [PAD]);
        out := out + Symbols([Six3(i1, 0)], alphabet) + [PAD];
        return;
      }
      var i2 := x[i];
      i := i + 1;
      out := out + Symbols([Six3(i1, i2)], alphabet) + Symbols([Six4(i2)], alphabet);
      EncodedThree(left, alphabet);
      JoinSymbols(done, Six1(i0), Six2(i0, i1), Six3(i1, i2), Six4(i2), alphabet);
      assert left[3..] == x[i..];
      AssocBytes(done, Symbols([Six1(i0), Six2(i0, i1), Six3(i1, i2), Six4(i2)], alphabet), Encoded(x[i..], alphabet));
    }
    assert Encoded(x[i..], alphabet) == [];
  }

  // ---------------------------------------------------------------- decode

  /** The low `bits` bits of the last character's value, not yet written. */
  function Carry(last: Byte, bits: nat): Bits
    requires bits <= 8
  {
    Bits8(last)[8 - bits..]
  }

  /** The byte that decode writes when `bits` bits are left and `part` arrives. */
  function Output(last: Byte, part: Byte, bits: nat): Byte
    requires 2 <= bits <= 6
  {
    (last << (8 - bits)) | (part >> (bits - 2))
  }

  lemma FirstPart(last: Byte, part: Byte)
    requires part < 64
    ensures Carry(last, 0) + Bits6(part) == Carry(part, 6)
  {
    assert part & 0x80 == 0 && part & 0x40 == 0;
  }

  lemma Shift6(l: Bits, p: Bits, out: Bits, q: Bits)
    requires |l| == |out| == |q| == 8 && |p| == 6
    requires out == [l[2], l[3], l[4], l[5], l[6], l[7], p[0], p[1]]
    requires q[4] == p[2] && q[5] == p[3] && q[6] == p[4] && q[7] == p[5]
    ensures l[2..] + p == out + q[4..]
  {
  }

  lemma OutputBits6(last: Byte, part: Byte)
    requires part < 64
    ensures Bits8(Output(last, part, 6))
         == [last & 0x20 != 0, last & 0x10 != 0, last & 8 != 0, last & 4 != 0,
             last & 2 != 0, last & 1 != 0, part & 0x20 != 0, part & 0x10 != 0]
  {
    var v := (last << 2) | (part >> 4);
    assert (v & 0x80 != 0) == (last & 0x20 != 0) && (v & 0x40 != 0) == (last & 0x10 != 0);
    assert (v & 0x20 != 0) == (last & 8 != 0) && (v & 0x10 != 0) == (last & 4 != 0);
    assert (v & 8 != 0) == (last & 2 != 0) && (v & 4 != 0) == (last & 1 != 0);
    assert (v & 2 != 0) == (part & 0x20 != 0) && (v & 1 != 0) == (part & 0x10 != 0);
  }

  lemma Shift4(l: Bits, p: Bits, out: Bits, q: Bits)
    requires |l| == |out| == |q| == 8 && |p| == 6
    requires out == [l[4], l[5], l[6], l[7], p[0], p[1], p[2], p[3]]
    requires q[6] == p[4] && q[7] == p[5]
    ensures l[4..] + p == out + q[6..]
  {
  }

  lemma OutputBits4(last: Byte, part: Byte)
    requires part < 64
    ensures Bits8(Output(last, part, 4))
         == [last & 8 != 0, last & 4 != 0, last & 2 != 0, last & 1 != 0,
             part & 0x20 != 0, part & 0x10 != 0, part & 8 != 0, part & 4 != 0]
  {
    var v := (last << 4) | (part >> 2);
    assert (v & 0x80 != 0) == (last & 8 != 0) && (v & 0x40 != 0) == (last & 4 != 0);
    assert (v & 0x20 != 0) == (last & 2 != 0) && (v & 0x10 != 0) == (last & 1 != 0);
    assert (v & 8 != 0) == (part & 0x20 != 0) && (v & 4 != 0) == (part & 0x10 != 0);
    assert (v & 2 != 0) == (part & 8 != 0) && (v & 1 != 0) == (part & 4 != 0);
  }

  lemma Shift2(l: Bits, p: Bits, out: Bits)
    requires |l| == |out| == 8 && |p| == 6
    requires out == [l[6], l[7], p[0], p[1], p[2], p[3], p[4], p[5]]
    ensures l[6..] + p == out
  {
  }

  lemma OutputBits2(last: Byte, part: Byte)
    requires part < 64
    ensures Bits8(Output(last, part, 2))
         == [last & 2 != 0, last & 1 != 0, part & 0x20 != 0, part & 0x10 != 0,
             part & 8 != 0, part & 4 != 0, part & 2 != 0, part & 1 != 0]
  {
    var v := (last << 6) | (part >> 0);
    assert (v & 0x80 != 0) == (last & 2 != 0) && (v & 0x40 != 0) == (last & 1 != 0);
    assert (v & 0x20 != 0) == (part & 0x20 != 0) && (v & 0x10 != 0) == (part & 0x10 != 0);
    assert (v & 8 != 0) == (part & 8 != 0) && (v & 4 != 0) == (part & 4 != 0);
    assert (v & 2 != 0) == (part & 2 != 0) && (v & 1 != 0) == (part & 1 != 0);
  }

  lemma Carried6(last: Byte, part: Byte)
    requires part < 64
    ensures Carry(last, 6) + Bits6(part) == Bits8(Output(last, part, 6)) + Carry(part, 4)
  {
    OutputBits6(last, part);
    Shift6(Bits8(last), Bits6(part), Bits8(Output(last, part, 6)), Bits8(part));
  }

  lemma Carried4(last: Byte, part: Byte)
    requires part < 64
    ensures Carry(last, 4) + Bits6(part) == Bits8(Output(last, part, 4)) + Carry(part, 2)
  {
    OutputBits4(last, part);
    Shift4(Bits8(last), Bits6(part), Bits8(Output(last, part, 4)), Bits8(part));
  }

  lemma Carried2(last: Byte, part: Byte)
    requires part < 64
    ensures Carry(last, 2) + Bits6(part) == Bits8(Output(last, part, 2)) + Carry(part, 0)
  {
    OutputBits2(last, part);
    Shift2(Bits8(last), Bits6(part), Bits8(Output(last, part, 2)));
  }

  /** One more value: its bits go on after those that are left, first into a byte if there are enough. */
  lemma Carried(last: Byte, part: Byte, bits: nat)
    requires part < 64 && (bits == 0 || bits == 2 || bits == 4 || bits == 6)
    ensures bits == 0 ==> Carry(last, bits) + Bits6(part) == Carry(part, 6)
    ensures bits != 0 ==>
              Carry(last, bits) + Bits6(part) == Bits8(Output(last, part, bits)) + Carry(part, bits - 2)
  {
    if bits == 0 {
      FirstPart(last, part);
    } else if bits == 2 {
      Carried2(last, part);
    } else if bits == 4 {
      Carried4(last, part);
    } else {
      Carried6(last, part);
    }
  }

  /** Where the decoder stands: the bytes written and the bits left are the bits of the values read. */
  ghost predicate Writes(out: seq<Byte>, last: Byte, bits: nat, values: seq<Byte>) {
    && (bits == 0 || bits == 2 || bits == 4 || bits == 6)
    && ByteBits(out) + Carry(last, bits) == SixBits(values)
  }

  /** After `n` characters, floor(6 * n / 8) bytes are written. */
  lemma WritesCount(out: seq<Byte>, last: Byte, bits: nat, values: seq<Byte>)
    requires Writes(out, last, bits, values)
    ensures |out| == 6 * |values| / 8 && BytesOf(SixBits(values)) == out
  {
    FlatLength(Bits8, out, 8);
    FlatLength(Bits6, values, 6);
    BytesOfByteBits(out, Carry(last, bits));
  }

  lemma WritesNext(out: seq<Byte>, last: Byte, bits: nat, values: seq<Byte>, part: Byte)
    requires Writes(out, last, bits, values) && part < 64
    ensures bits == 0 ==> Writes(out, part, 6, values + [part])
    ensures bits != 0 ==> Writes(out + [Output(last, part, bits)], part, bits - 2, values + [part])
  {
    FlatJoin(Bits6, values, [part]);
    FlatOne(Bits6, part);
    Carried(last, part, bits);
    if bits == 0 {
      AssocBits(ByteBits(out), Carry(last, bits), Bits6(part));
    } else {
      var byte := Output(last, part, bits);
      FlatJoin(Bits8, out, [byte]);
      FlatOne(Bits8, byte);
      AssocBits(ByteBits(out), Carry(last, bits), Bits6(part));
      AssocBits(ByteBits(out), Bits8(byte), Carry(part, bits - 2));
    }
  }

  /** What is still to be read: `values` have been read, under `now` from here on. */
  ghost predicate Reads(s: seq<Byte>, alphabet: Alphabet, i: nat, now: Alphabet, values: seq<Byte>) {
    && i <= |s| && |values| == i
    && |Body(s)| == i + |Body(s[i..])|
    && Values(alphabet, Body(s))
       == match Values(now, Body(s[i..]))
          case InvalidCharacter => InvalidCharacter
          case Ok(rest) => Ok(values + rest)
  }

  lemma ReadsFirst(s: seq<Byte>, alphabet: Alphabet)
    ensures Reads(s, alphabet, 0, alphabet, [])
  {
    assert s[0..] == s;
    if Values(alphabet, Body(s)).Ok? {
      assert [] + Values(alphabet, Body(s)).value == Values(alphabet, Body(s)).value;
    }
  }

  lemma ReadsNext(s: seq<Byte>, alphabet: Alphabet, i: nat, now: Alphabet, values: seq<Byte>)
    requires Reads(s, alphabet, i, now, values) && i < |s| && s[i] != PAD
    ensures match Value(now, s[i])
            case InvalidCharacter => Values(alphabet, Body(s)) == InvalidCharacter
            case Ok((v, next)) => Reads(s, alphabet, i + 1, next, values + [v])
  {
    var left := s[i..];
    assert left[1..] == s[i + 1..];
    assert Body(left)[1..] == Body(s[i + 1..]);
    match Value(now, s[i])
    case InvalidCharacter =>
    case Ok((v, next)) =>
      if Values(next, Body(s[i + 1..])).Ok? {
        AssocBytes(values, [v], Values(next, Body(s[i + 1..])).value);
      }
  }

  lemma ReadsAll(s: seq<Byte>, alphabet: Alphabet, i: nat, now: Alphabet, values: seq<Byte>)
    requires Reads(s, alphabet, i, now, values) && (i == |s| || s[i] == PAD)
    ensures |Body(s)| == i && Values(alphabet, Body(s)) == Ok(values)
  {
    assert Body(s[i..]) == [];
    assert values + [] == values;
  }

  /** Where decode ends: all values are read, so what is written is the result unless the padding is wrong. */
  lemma WritesAll(s: seq<Byte>, alphabet: Alphabet, loose: bool, out: seq<Byte>, last: Byte, bits: nat,
                  values: seq<Byte>)
    requires Writes(out, last, bits, values) && Values(alphabet, Body(s)) == Ok(values)
    ensures Decoded(s, alphabet, loose)
         == if loose || AllPads(s[|Body(s)|..]) then Ok(out) else InvalidCharacter
  {
    WritesCount(out, last, bits, values);
  }

  /** The padding check at the end of decode. */
  method CheckPads(s: seq<Byte>, from: nat) returns (ok: bool)
    requires from <= |s|
    ensures ok <==> AllPads(s[from..])
  {
    var i := from;
    while i < |s|
      invariant from <= i <= |s| && (AllPads(s[from..]) <==> AllPads(s[i..]))
    {
      PadFirst(s, i);
      if s[i] != PAD {
        return false;
      }
      i := i + 1;
    }
    return true;
  }

  /** The value of the next character, and what remains to be read after it. */
  method ValueOf(now: Alphabet, c: Byte, ghost s: seq<Byte>, ghost alphabet: Alphabet, ghost i: nat,
                 ghost values: seq<Byte>)
    returns (r: Result<(Byte, Alphabet)>)
    requires Reads(s, alphabet, i, now, values) && i < |s| && c == s[i] != PAD
    ensures r == Value(now, c)
    ensures r.InvalidCharacter? ==> Values(alphabet, Body(s)) == InvalidCharacter
    ensures r.Ok? ==> Reads(s, alphabet, i + 1, r.value.1, values + [r.value.0])
  {
    ReadsNext(s, alphabet, i, now, values);
    r := Value(now, c);
  }

  /** One value is taken in: with the bits that are left it fills up a byte, or it is kept. */
  method Write(out: seq<Byte>, last: Byte, bits: nat, part: Byte, ghost values: seq<Byte>)
    returns (out': seq<Byte>, bits': nat)
    requires Writes(out, last, bits, values) && part < 64
    ensures Writes(out', part, bits', values + [part])
  {
    WritesNext(out, last, bits, values, part);
    if bits + 6 >= 8 {
      return out + [Output(last, part, bits)], bits - 2;
    } else {
      return out, bits + 6;
    }
  }

  /** base64::decode */
  method Decode(s: seq<Byte>, alphabet: Alphabet, loose: bool) returns (r: Result<seq<Byte>>)
    ensures r == Decoded(s, alphabet, loose)
  {
    var now, last, i := alphabet, 0 as Byte, 0;
    var bits: nat, out: seq<Byte> := 0, [];
    ghost var values: seq<Byte>, padded := [], false;
    ReadsFirst(s, alphabet);
    while i < |s|
      invariant Reads(s, alphabet, i, now, values) && Writes(out, last, bits, values) && !padded
    {
      var c := s[i];
      i := i + 1;
      if c == PAD {
        ReadsAll(s, alphabet, i - 1, now, values);
        PadFirst(s, i - 1);
        padded := true;
        break;
      }
      var part := ValueOf(now, c, s, alphabet, i - 1, values);
      if part.InvalidCharacter? {
        return InvalidCharacter;
      }
      out, bits := Write(out, last, bits, part.value.0, values);
      values := values + [part.value.0];
      last, now := part.value.0, part.value.1;
    }
    if !padded {
      ReadsAll(s, alphabet, i, now, values);
    }
    WritesAll(s, alphabet, loose, out, last, bits, values);
    if !loose {
      var ok := CheckPads(s, i);
      if !ok {
        return InvalidCharacter;
      }
    }
    return Ok(out);
  }

  lemma PadFirst(s: seq<Byte>, i: nat)
    requires i < |s|
    ensures AllPads(s[i..]) <==> s[i] == PAD && AllPads(s[i + 1..])
  {
    assert s[i..] == [s[i]] + s[i + 1..];
  }

  /** The array while it is decoded in place: the bytes written, then what has not been written over. */
  ghost predicate Overwrites(now: seq<Byte>, out: seq<Byte>, s: seq<Byte>) {
    |out| <= |s| && now == out + s[|out|..]
  }

  lemma NotYetWritten(now: seq<Byte>, out: seq<Byte>, s: seq<Byte>, i: nat)
    requires Overwrites(now, out, s) && |out| <= i < |s|
    ensures |now| == |s| && now[i] == s[i]
  {
  }

  /** What is read from the array is what it held at the start. */
  method Read(a: array<Byte>, i: nat, ghost out: seq<Byte>, ghost s: seq<Byte>) returns (c: Byte)
    requires Overwrites(a[..], out, s) && |out| <= i < a.Length
    ensures a.Length == |s| && c == s[i]
  {
    c := a[i];
    NotYetWritten(a[..], out, s, i);
  }

  /** The same with the bytes written into the array, the next at `o`. */
  method WriteInPlace(a: array<Byte>, o: nat, last: Byte, bits: nat, part: Byte,
               ghost out: seq<Byte>, ghost s: seq<Byte>, ghost values: seq<Byte>)
    returns (o': nat, bits': nat, ghost out': seq<Byte>)
    requires Writes(out, last, bits, values) && part < 64
    requires |out| == o <= |values| < a.Length && Overwrites(a[..], out, s)
    modifies a
    ensures Writes(out', part, bits', values + [part])
    ensures |out'| == o' <= |values| + 1 && Overwrites(a[..], out', s)
  {
    WritesNext(out, last, bits, values, part);
    if bits + 6 >= 8 {
      a[o] := Output(last, part, bits);
      o', bits', out' := o + 1, bits - 2, out + [Output(last, part, bits)];
    } else {
      o', bits', out' := o, bits + 6, out;
    }
  }

  /** The padding check of decode_inplace, on what has not been written over. */
  method CheckPadsInPlace(a: array<Byte>, from: nat, ghost s: seq<Byte>, ghost out: seq<Byte>) returns (ok: bool)
    requires Overwrites(a[..], out, s) && |out| <= from <= |s|
    ensures ok <==> AllPads(s[from..])
  {
    var i := from;
    while i < a.Length
      invariant from <= i <= |s| && (AllPads(s[from..]) <==> AllPads(s[i..]))
    {
      NotYetWritten(a[..], out, s, i);
      PadFirst(s, i);
      if a[i] != PAD {
        return false;
      }
      i := i + 1;
    }
    return true;
  }

  /** The variables of decode. */
  datatype Decoder = Decoder(now: Alphabet, last: Byte, bits: nat, o: nat)

  /** Decoding in place stands at `i`: `values` are read and `out` is written. */
  ghost predicate Stands(d: Decoder, a: seq<Byte>, s: seq<Byte>, alphabet: Alphabet, i: nat, values: seq<Byte>,
                         out: seq<Byte>)
  {
    && Reads(s, alphabet, i, d.now, values)
    && Writes(out, d.last, d.bits, values)
    && d.o == |out| <= i && Overwrites(a, out, s)
  }

  /** One character that is no padding. */
  method NextInPlace(a: array<Byte>, d: Decoder, i: nat, ghost s: seq<Byte>, ghost alphabet: Alphabet,
                     ghost values: seq<Byte>, ghost out: seq<Byte>)
    returns (r: Result<Decoder>, ghost values': seq<Byte>, ghost out': seq<Byte>)
    requires i < a.Length && a[i] != PAD && Stands(d, a[..], s, alphabet, i, values, out)
    modifies a
    ensures if r.Ok? then Stands(r.value, a[..], s, alphabet, i + 1, values', out')
            else Values(alphabet, Body(s)) == InvalidCharacter
  {
    var c := Read(a, i, out, s);
    var part := ValueOf(d.now, c, s, alphabet, i, values);
    if part.InvalidCharacter? {
      return InvalidCharacter, [], [];
    }
    var o, bits;
    o, bits, out' := WriteInPlace(a, d.o, d.last, d.bits, part.value.0, out, s, values);
    return Ok(Decoder(part.value.1, part.value.0, bits, o)), values + [part.value.0], out';
  }

  lemma StandsFirst(s: seq<Byte>, alphabet: Alphabet)
    ensures Stands(Decoder(alphabet, 0, 0, 0), s, s, alphabet, 0, [], [])
  {
    ReadsFirst(s, alphabet);
  }

  /** The characters before the padding. */
  method DecodeBody(a: array<Byte>, alphabet: Alphabet)
    returns (r: Result<Decoder>, i: nat, ghost values: seq<Byte>, ghost out: seq<Byte>)
    modifies a
    ensures r.Ok? ==> Stands(r.value, a[..], old(a[..]), alphabet, i, values, out)
    ensures r.Ok? ==> i == a.Length || (i < a.Length && a[i] == PAD)
    ensures r.InvalidCharacter? ==> Values(alphabet, Body(old(a[..]))) == InvalidCharacter
  {
    ghost var s := a[..];
    r, i, values, out := Ok(Decoder(alphabet, 0, 0, 0)), 0, [], [];
    StandsFirst(s, alphabet);
    while i < a.Length && a[i] != PAD
      invariant r.Ok? && Stands(r.value, a[..], s, alphabet, i, values, out)
    {
      r, values, out := NextInPlace(a, r.value, i, s, alphabet, values, out);
      if r.InvalidCharacter? {
        return;
      }
      i := i + 1;
    }
  }

  /**
   base64::decode_inplace: the bytes are written over the characters they come from, never over one that is
   still to be read. Returns the number of bytes.
   */
  method DecodeInPlace(a: array<Byte>, alphabet: Alphabet, loose: bool) returns (r: Result<nat>)
    modifies a
    ensures match Decoded(old(a[..]), alphabet, loose)
            case InvalidCharacter => r == InvalidCharacter
            case Ok(bytes) => r == Ok(|bytes|) && Overwrites(a[..], bytes, old(a[..]))
  {
    ghost var s := a[..];
    var d, i;
    ghost var values, out;
    d, i, values, out := DecodeBody(a, alphabet);
    if d.InvalidCharacter? {
      return InvalidCharacter;
    }
    StandsAtEnd(d.value, a[..], s, alphabet, i, values, out, loose);
    if !loose {
      var ok := CheckPadsInPlace(a, i, s, out);
      if !ok {
        return InvalidCharacter;
      }
    }
    return Ok(d.value.o);
  }

  lemma StandsAtEnd(d: Decoder, a: seq<Byte>, s: seq<Byte>, alphabet: Alphabet, i: nat, values: seq<Byte>,
                    out: seq<Byte>, loose: bool)
    requires Stands(d, a, s, alphabet, i, values, out) && (i == |a| || (i < |a| && a[i] == PAD))
    ensures |a| == |s| && |Body(s)| == i
    ensures Decoded(s, alphabet, loose) == if loose || AllPads(s[i..]) then Ok(out) else InvalidCharacter
  {
    if i < |a| {
      NotYetWritten(a, out, s, i);
    }
    ReadsAll(s, alphabet, i, d.now, values);
    WritesAll(s, alphabet, loose, out, d.last, d.bits, values);
  }

  // ---------------------------------------------------------------- laws

  /** Automatic detection finds the values that one of the two alphabets gives. */
  lemma {:induction false} AutoValues(s: seq<Byte>)
    ensures Values(Auto, s) == if Values(Standard, s).Ok? then Values(Standard, s) else Values(UrlSafe, s)
    ensures Values(Standard, s).Ok? && Values(UrlSafe, s).Ok? ==> Values(Standard, s) == Values(UrlSafe, s)
  {
    if s != [] {
      AutoValues(s[1..]);
    }
  }

  /** Decoding with detection succeeds exactly if one of the two alphabets does, with the same bytes. */
  lemma AutoMeaning(s: seq<Byte>, loose: bool)
    ensures Decoded(s, Auto, loose).Ok? <==> Decoded(s, Standard, loose).Ok? || Decoded(s, UrlSafe, loose).Ok?
    ensures Decoded(s, Standard, loose).Ok? ==> Decoded(s, Auto, loose) == Decoded(s, Standard, loose)
    ensures Decoded(s, UrlSafe, loose).Ok? ==> Decoded(s, Auto, loose) == Decoded(s, UrlSafe, loose)
  {
    AutoValues(Body(s));
  }

  /** The alphabet that encode uses: the standard one unless told otherwise. */
  function Fixed(alphabet: Alphabet): Alphabet {
    if alphabet == UrlSafe then UrlSafe else Standard
  }

  predicate AllSixes(values: seq<Byte>) {
    forall i :: 0 <= i < |values| ==> values[i] < 64
  }

  lemma {:induction false} SixesAreSmall(bits: Bits)
    ensures AllSixes(SixesOf(bits))
  {
    if 0 < |bits| < 6 {
      BitsOfToSix(bits + Zeros(6 - |bits|));
    } else if |bits| >= 6 {
      BitsOfToSix(bits[..6]);
      SixesAreSmall(bits[6..]);
    }
  }

  lemma {:induction false} ValuesOfSymbols(values: seq<Byte>, alphabet: Alphabet)
    requires AllSixes(values)
    ensures Values(Fixed(alphabet), Symbols(values, alphabet)) == Ok(values)
  {
    if values != [] {
      assert Symbols(values, alphabet)[1..] == Symbols(values[1..], alphabet);
      assert Symbols(values, alphabet)[0] == Symbol(values[0], Fixed(alphabet));
      ValueOfSymbol(values[0], Fixed(alphabet));
      ValuesOfSymbols(values[1..], alphabet);
      assert values == [values[0]] + values[1..];
    }
  }

  lemma {:induction false} BodyOf(body: seq<Byte>, n: nat)
    requires forall i :: 0 <= i < |body| ==> body[i] != PAD
    ensures Body(body + Pads(n)) == body
  {
    if body != [] {
      assert (body + Pads(n))[1..] == body[1..] + Pads(n);
      BodyOf(body[1..], n);
    }
  }

  /** Decoding gives back what was encoded: in either alphabet, with detection, strict or loose. */
  lemma RoundTrip(x: seq<Byte>, alphabet: Alphabet, other: Alphabet, loose: bool)
    requires other == Auto || other == Fixed(alphabet)
    ensures Decoded(Encoded(x, alphabet), other, loose) == Ok(x)
  {
    var bits, s := ByteBits(x), Encoded(x, alphabet);
    var values := SixesOf(bits);
    SixesAreSmall(bits);
    ValuesOfSymbols(values, alphabet);
    forall i | 0 <= i < |values|
      ensures Symbols(values, alphabet)[i] != PAD
    {
      ValueOfSymbol(values[i], alphabet);
    }
    BodyOf(Symbols(values, alphabet), Padding(|x|));
    SixBitsOfSixes(bits);
    var n: nat :| n < 6 && SixBits(values) == bits + Zeros(n);
    BytesOfByteBits(x, Zeros(n));
    assert s[|values|..] == Pads(Padding(|x|));
    AutoMeaning(s, loose);
  }

  lemma {:induction false} SixesCount(bits: Bits)
    ensures 6 * |SixesOf(bits)| == |bits| + (if |bits| % 6 == 0 then 0 else 6 - |bits| % 6)
  {
    if |bits| >= 6 {
      SixesCount(bits[6..]);
    }
  }

  /** The encoding has the length that required_encode_size promises. */
  lemma EncodedLength(x: seq<Byte>, alphabet: Alphabet)
    ensures |Encoded(x, alphabet)| == RequiredEncodeSize(|x|)
  {
    FlatLength(Bits8, x, 8);
    SixesCount(ByteBits(x));
  }

  lemma {:induction false} BytesCount(bits: Bits)
    ensures |BytesOf(bits)| == |bits| / 8
  {
    if |bits| >= 8 {
      BytesCount(bits[8..]);
    }
  }

  /** Decoding `n` characters before the padding gives floor(6 * n / 8) bytes, which fit max_decode_size. */
  lemma DecodedLength(s: seq<Byte>, alphabet: Alphabet, loose: bool)
    requires Decoded(s, alphabet, loose).Ok?
    ensures |Decoded(s, alphabet, loose).value| == 6 * |Body(s)| / 8 <= MaxDecodeSize(|s|)
  {
    var values := Values(alphabet, Body(s)).value;
    FlatLength(Bits6, values, 6);
    BytesCount(SixBits(values));
  }

  // ---------------------------------------------------------------- constants

  const UPPER: string := "ABCDEFGHIJKLMNOPQRSTUVWXYZ"
  const LOWER: string := "abcdefghijklmnopqrstuvwxyz"
  const DIGITS: string := "0123456789"

  lemma LetterAt(k: nat)
    ensures k < 26 ==> UPPER[k] as int == 65 + k && LOWER[k] as int == 97 + k
    ensures k < 10 ==> DIGITS[k] as int == 48 + k
  {
  }

  /** The characters of the two alphabets, in order. */
  lemma AlphabetIs(v: Byte, k: nat)
    requires v as int == k < 62
    ensures Symbol(v, Standard) == Symbol(v, UrlSafe)
    ensures Symbol(v, Standard) as int == (UPPER + LOWER + DIGITS)[k] as int
    ensures Symbol(62, Standard) as int == '+' as int && Symbol(63, Standard) as int == '/' as int
    ensures Symbol(62, UrlSafe) as int == '-' as int && Symbol(63, UrlSafe) as int == '_' as int
  {
    LetterAt(if k < 26 then k else if k < 52 then k - 26 else k - 52);
  }

  /** The examples of RFC 4648, section 10: "f", "fo" and "foobar". */
  lemma Examples()
    ensures Encoded([0x66], Standard) == [0x5A, 0x67, PAD, PAD]
    ensures Encoded([0x66, 0x6F], Standard) == [0x5A, 0x6D, 0x38, PAD]
  {
    EncodedOne(0x66, Standard);
    EncodedTwo(0x66, 0x6F, Standard);
  }

  lemma LongerExample()
    ensures Encoded([0x66, 0x6F, 0x6F, 0x62, 0x61, 0x72], Standard)
         == [0x5A, 0x6D, 0x39, 0x76, 0x59, 0x6D, 0x46, 0x79]
  {
    var x: seq<Byte> := [0x66, 0x6F, 0x6F, 0x62, 0x61, 0x72];
    EncodedThree(x, Standard);
    assert x[3..] == [0x62, 0x61, 0x72];
    GroupOf(0x66, 0x6F, 0x6F);
    GroupOf(0x62, 0x61, 0x72);
    OneGroup(0x62, 0x61, 0x72);
  }

  /** The characters of three bytes. */
  function Group(a: Byte, b: Byte, c: Byte): seq<Byte> {
    [Symbol(Six1(a), Standard), Symbol(Six2(a, b), Standard), Symbol(Six3(b, c), Standard), Symbol(Six4(c), Standard)]
  }

  lemma GroupOf(a: Byte, b: Byte, c: Byte)
    ensures Symbols([Six1(a), Six2(a, b), Six3(b, c), Six4(c)], Standard) == Group(a, b, c)
  {
  }

  lemma OneGroup(a: Byte, b: Byte, c: Byte)
    ensures Encoded([a, b, c], Standard) == Group(a, b, c)
  {
    var x := [a, b, c];
    EncodedThree(x, Standard);
    GroupOf(a, b, c);
    assert x[3..] == [] && Encoded([], Standard) == [];
  }

  // ---------------------------------------------------------------- what decode accepts, and the bits it gives

  /** `c` stands for six bits in `alphabet`. */
  ghost predicate IsSymbol(c: Byte, alphabet: Alphabet) {
    exists v: Byte :: v < 64 && Symbol(v, alphabet) == c
  }

  lemma SymbolOfValue(alphabet: Alphabet, c: Byte)
    requires Value(alphabet, c).Ok?
    ensures var (v, next) := Value(alphabet, c).value;
            v < 64 && Symbol(v, next) == c && (next == alphabet || alphabet == Auto)
  {
  }

  lemma ValueIsFixed(alphabet: Alphabet, v: Byte)
    requires v < 64
    ensures alphabet != UrlSafe ==> Value(alphabet, Symbol(v, Standard)).Ok?
    ensures alphabet != Standard ==> Value(alphabet, Symbol(v, UrlSafe)).Ok?
  {
  }

  /** A character is valid exactly if it belongs to the alphabet, or to either one while none is settled. */
  lemma ValueAccepts(alphabet: Alphabet, c: Byte)
    ensures Value(alphabet, c).Ok?
       <==> (alphabet != UrlSafe && IsSymbol(c, Standard)) || (alphabet != Standard && IsSymbol(c, UrlSafe))
  {
    if Value(alphabet, c).Ok? {
      SymbolOfValue(alphabet, c);
      var (v, next) := Value(alphabet, c).value;
      assert Symbol(v, if next == UrlSafe then UrlSafe else Standard) == c;
    } else {
      forall v: Byte | v < 64
        ensures alphabet != UrlSafe ==> Symbol(v, Standard) != c
        ensures alphabet != Standard ==> Symbol(v, UrlSafe) != c
      {
        ValueIsFixed(alphabet, v);
      }
    }
  }

  /** The first padding character, or the end. */
  ghost predicate EndsAt(s: seq<Byte>, n: nat) {
    n <= |s| && (forall i :: 0 <= i < n ==> s[i] != PAD) && (n < |s| ==> s[n] == PAD)
  }

  lemma {:induction false} BodyIs(s: seq<Byte>, n: nat)
    requires EndsAt(s, n)
    ensures Body(s) == s[..n]
  {
    if n > 0 {
      assert EndsAt(s[1..], n - 1) by {
        assert forall i :: 0 <= i < |s| - 1 ==> s[1..][i] == s[i + 1];
      }
      BodyIs(s[1..], n - 1);
      assert [s[0]] + s[1..][..n - 1] == s[..n];
    }
  }

  lemma {:induction false} ValuesAccept(s: seq<Byte>, alphabet: Alphabet)
    requires alphabet != Auto
    ensures Values(alphabet, s).Ok? <==> forall i :: 0 <= i < |s| ==> IsSymbol(s[i], alphabet)
    ensures Values(alphabet, s).Ok? ==>
              forall i :: 0 <= i < |s| ==>
                Values(alphabet, s).value[i] < 64 && Symbol(Values(alphabet, s).value[i], alphabet) == s[i]
    decreases |s|
  {
    if s != [] {
      ValueAccepts(alphabet, s[0]);
      if Value(alphabet, s[0]).Ok? {
        SymbolOfValue(alphabet, s[0]);
        ValuesAccept(s[1..], alphabet);
        assert forall i :: 1 <= i < |s| ==> s[i] == s[1..][i - 1];
      }
    }
  }

  /** Decoding succeeds exactly on characters of the alphabet up to padding, and on padding alone from there. */
  lemma DecodedAccepts(s: seq<Byte>, alphabet: Alphabet, loose: bool, n: nat)
    requires alphabet != Auto && EndsAt(s, n)
    ensures Decoded(s, alphabet, loose).Ok?
       <==> && (forall i :: 0 <= i < n ==> IsSymbol(s[i], alphabet))
            && (loose || forall i :: n <= i < |s| ==> s[i] == PAD)
  {
    BodyIs(s, n);
    ValuesAccept(s[..n], alphabet);
    assert forall i :: 0 <= i < n ==> s[..n][i] == s[i];
    assert AllPads(s[n..]) <==> forall i :: n <= i < |s| ==> s[i] == PAD by {
      assert forall i :: 0 <= i < |s| - n ==> s[n..][i] == s[n + i];
      assert forall i :: n <= i < |s| ==> s[i] == s[n..][i - n];
    }
  }

  lemma {:induction false} SixBitsAt(values: seq<Byte>, j: nat, k: nat)
    requires j < |values| && k < 6
    ensures 6 * j + k < |SixBits(values)| && SixBits(values)[6 * j + k] == Bits6(values[j])[k]
  {
    if j > 0 {
      SixBitsAt(values[1..], j - 1, k);
    }
  }

  lemma {:induction false} BytesOfAt(bits: Bits, i: nat, k: nat)
    requires i < |BytesOf(bits)| && k < 8
    ensures 8 * i + k < |bits| && Bits8(BytesOf(bits)[i])[k] == bits[8 * i + k]
  {
    if i > 0 {
      BytesOfAt(bits[8..], i - 1, k);
    } else {
      BitsOfToByte(bits[..8]);
    }
  }

  lemma BitsOfToByte(bits: Bits)
    requires |bits| == 8
    ensures Bits8(ToByte(bits)) == bits
  {
  }

  lemma SixOfBit(values: seq<Byte>, j: nat, l: nat)
    requires 6 * j + l < |SixBits(values)| && l < 6
    ensures j < |values| && SixBits(values)[6 * j + l] == Bits6(values[j])[l]
  {
    FlatLength(Bits6, values, 6);
    SixBitsAt(values, j, l);
  }

  lemma SymbolIsValue(s: seq<Byte>, alphabet: Alphabet, j: nat, v: Byte)
    requires alphabet != Auto && Values(alphabet, Body(s)).Ok? && j < |Body(s)|
    requires v < 64 && Symbol(v, alphabet) == s[j]
    ensures Values(alphabet, Body(s)).value[j] == v
  {
    BodyIsFront(s);
    ValuesAccept(Body(s), alphabet);
    ValueOfSymbol(v, alphabet);
    ValueOfSymbol(Values(alphabet, Body(s)).value[j], alphabet);
  }

  lemma BitOfValues(values: seq<Byte>, i: nat, k: nat, j: nat, l: nat)
    requires i < |BytesOf(SixBits(values))| && k < 8 && l < 6 && 8 * i + k == 6 * j + l
    ensures j < |values| && Bits8(BytesOf(SixBits(values))[i])[k] == Bits6(values[j])[l]
  {
    BytesOfAt(SixBits(values), i, k);
    SixOfBit(values, j, l);
  }

  /** Bit `k` of decoded byte `i` is the same bit of the text: bit `l` of the six that character `j` stands for. */
  lemma DecodedBit(s: seq<Byte>, alphabet: Alphabet, loose: bool, i: nat, k: nat, j: nat, l: nat, v: Byte)
    requires alphabet != Auto && Decoded(s, alphabet, loose).Ok?
    requires i < |Decoded(s, alphabet, loose).value| && k < 8
    requires 8 * i + k == 6 * j + l && l < 6 && j < |s| && v < 64 && Symbol(v, alphabet) == s[j]
    ensures Bits8(Decoded(s, alphabet, loose).value[i])[k] == Bits6(v)[l]
  {
    var values := Values(alphabet, Body(s)).value;
    BitOfValues(values, i, k, j, l);
    SymbolIsValue(s, alphabet, j, v);
  }

  lemma {:induction false} BodyIsFront(s: seq<Byte>)
    ensures Body(s) == s[..|Body(s)|]
  {
    if s != [] && s[0] != PAD {
      BodyIsFront(s[1..]);
      assert [s[0]] + s[1..][..|Body(s[1..])|] == s[..|Body(s)|];
    }
  }
}
