/**
 * The encoders and decoders of python/src/p2p_framework/serial.py.
 *
 * A decoder is a function of the bytes still unread: it fails where the program raises
 * `struct.error`, and otherwise returns what it read and what is left of the stream.
 */
module Serial {
  import opened Common
  import opened Arithmetic

  datatype Parse<+T> = Fail | Ok(value: T, rest: Bytes) {
    predicate IsFailure() {
      Fail?
    }

    function PropagateFailure<U>(): Parse<U>
      requires Fail?
    {
      Fail
    }

    function Extract(): (T, Bytes)
      requires Ok?
    {
      (value, rest)
    }
  }

  type Parser<!T> = Bytes -> Parse<T>

  const TWO_16 := 0x1_0000
  const TWO_63 := 0x8000_0000_0000_0000
  const TWO_64 := 0x1_0000_0000_0000_0000

  type Int32 = n: int | -TWO_31 <= n < TWO_31
  type Uint32 = n: int | 0 <= n < TWO_32
  type Int64 = n: int | -TWO_63 <= n < TWO_63
  type Uint64 = n: int | 0 <= n < TWO_64
  type Uint256 = n: nat | n < Pow256(32)

  /** A list short enough for its length to be sent. */
  type Vector<T> = s: seq<T> | |s| < TWO_64

  // ---- fixed-width little-endian integers ----

  function Pow256(k: nat): (r: nat)
    ensures r >= 1
  {
    if k == 0 then 1 else 256 * Pow256(k - 1)
  }

  /** The low `k` bytes of `n`, least significant first: `struct.pack` with "<". */
  function LE(n: nat, k: nat): (r: Bytes)
    ensures |r| == k
  {
    if k == 0 then [] else [n % 256] + LE(n / 256, k - 1)
  }

  /** `struct.unpack` of the same bytes. */
  function FromLE(bs: Bytes): (r: nat)
  {
    if bs == [] then 0 else bs[0] + 256 * FromLE(bs[1..])
  }

  lemma {:induction false} FromLEInRange(bs: Bytes)
    ensures FromLE(bs) < Pow256(|bs|)
  {
    if bs != [] {
      FromLEInRange(bs[1..]);
    }
  }

  /** Packing keeps exactly the low bytes of a number. */
  lemma {:induction false} FromLEOfLE(n: nat, k: nat)
    ensures FromLE(LE(n, k)) == n % Pow256(k)
  {
    if k > 0 {
      FromLEOfLE(n / 256, k - 1);
      ModSplit256(n, Pow256(k - 1));
    }
  }

  lemma {:induction false} LowByte(b: Byte, n: nat)
    ensures (b + 256 * n) % 256 == b && (b + 256 * n) / 256 == n
  {
  }

  lemma {:induction false} LEOfFromLE(bs: Bytes)
    ensures LE(FromLE(bs), |bs|) == bs
  {
    if bs != [] {
      LEOfFromLE(bs[1..]);
      LowByte(bs[0], FromLE(bs[1..]));
      assert [bs[0]] + bs[1..] == bs;
    }
  }

  /** Byte `i` is digit `i` to base 256, the lowest first. */
  lemma {:induction false} LEDigits(n: nat, k: nat, i: nat)
    requires i < k
    ensures LE(n, k)[i] == n / Pow256(i) % 256
  {
    if i > 0 {
      LEDigits(n / 256, k - 1, i - 1);
      DivDiv(n, 256, Pow256(i - 1));
    }
  }

  lemma {:induction false} Pow256Add(a: nat, b: nat)
    ensures Pow256(a + b) == Pow256(a) * Pow256(b)
  {
    if a > 0 {
      Pow256Add(a - 1, b);
    }
  }

  lemma {:induction false} FromLEAppend(a: Bytes, b: Bytes)
    ensures FromLE(a + b) == FromLE(a) + Pow256(|a|) * FromLE(b)
  {
    if a == [] {
      assert a + b == b;
    } else {
      FromLEAppend(a[1..], b);
      assert (a + b)[1..] == a[1..] + b;
      MulAssoc(256, Pow256(|a| - 1), FromLE(b));
    }
  }

  lemma {:induction false} LEStep(n: nat, k: nat)
    requires k >= 1
    ensures LE(n, k) == [n % 256] + LE(n / 256, k - 1)
  {
  }

  function Pair(v: nat): Bytes {
    [v % 256, v / 256 % 256]
  }

  lemma {:induction false} LEPair(n: nat, m: nat)
    ensures LE(n, 2 + m) == Pair(n) + LE(n / TWO_16, m)
  {
    LEStep(n, 2 + m);
    LEStep(n / 256, 1 + m);
    assert n / 256 / 256 == n / TWO_16;
  }

  lemma {:induction false} Append3(a: Bytes, b: Bytes, c: Bytes)
    ensures a + (b + c) == a + b + c
  {
  }

  lemma {:induction false} LEQuad(v: nat, m: nat)
    ensures LE(v, 4 + m) == Pair(v) + Pair(v / TWO_16) + LE(v / TWO_32, m)
  {
    var w := v / TWO_16;
    assert w / TWO_16 == v / TWO_32;
    LEPair(v, 2 + m);
    LEPair(w, m);
    Append3(Pair(v), Pair(w), LE(v / TWO_32, m));
  }

  /** Four bytes of a number are its low 32-bit word. */
  lemma {:induction false} LEWord(v: nat, m: nat)
    ensures LE(v, 4 + m) == LE(v % TWO_32, 4) + LE(v / TWO_32, m)
  {
    LEQuad(v, m);
    LEQuad(v, 0);
    LowWord(v);
  }

  lemma {:induction false} LowWord(v: nat)
    ensures LE(v % TWO_32, 4) == LE(v, 4)
  {
    Powers();
    FromLEOfLE(v, 4);
    FromLEOfLE(v % TWO_32, 4);
    LEOfFromLE(LE(v, 4));
    LEOfFromLE(LE(v % TWO_32, 4));
  }

  // ---- reading ----

  /** `struct.unpack(f.read(n))`: fails when fewer than `n` bytes are left. */
  function Exactly(bs: Bytes, n: nat): Parse<Bytes> {
    if |bs| < n then Fail else Ok(bs[..n], bs[n..])
  }

  function ParseUint(bs: Bytes, n: nat): Parse<nat> {
    var (v, rest) :- Exactly(bs, n);
    Ok(FromLE(v), rest)
  }

  function ParseInt(bs: Bytes, n: nat): Parse<int> {
    var (v, rest) :- ParseUint(bs, n);
    Ok(if 2 * v >= Pow256(n) then v - Pow256(n) else v, rest)
  }

  function SerInt(v: int, n: nat): Bytes
    requires 0 <= 2 * v + Pow256(n) && 2 * v < Pow256(n)
  {
    LE(if v < 0 then v + Pow256(n) else v, n)
  }

  /** Only too few bytes make a number unreadable. */
  lemma {:induction false} UintReadsIff(bs: Bytes, n: nat)
    ensures ParseUint(bs, n).Ok? <==> |bs| >= n
    ensures |bs| >= n ==> ParseUint(bs, n) == Ok(FromLE(bs[..n]), bs[n..])
  {
  }

  /** A negative number is written as what it is short of the range: two's complement. */
  lemma {:induction false} SerIntIsTwosComplement(v: int, n: nat)
    requires 0 <= 2 * v + Pow256(n) && 2 * v < Pow256(n)
    ensures FromLE(SerInt(v, n)) == v % Pow256(n)
  {
    FromLEOfLE(if v < 0 then v + Pow256(n) else v, n);
    ModOfShift(v, Pow256(n));
  }

  lemma {:induction false} SmallIsKept(v: nat, n: nat)
    requires v < Pow256(n)
    ensures FromLE(LE(v, n)) == v
  {
    FromLEOfLE(v, n);
    DivUnique(v, Pow256(n), 0, v);
  }

  lemma {:induction false} UintRoundTrip(v: nat, n: nat, rest: Bytes)
    requires v < Pow256(n)
    ensures ParseUint(LE(v, n) + rest, n) == Ok(v, rest)
  {
    SmallIsKept(v, n);
    var bs := LE(v, n) + rest;
    assert bs[..n] == LE(v, n) && bs[n..] == rest;
  }

  lemma {:induction false} IntRoundTrip(v: int, n: nat, rest: Bytes)
    requires 0 <= 2 * v + Pow256(n) && 2 * v < Pow256(n)
    ensures ParseInt(SerInt(v, n) + rest, n) == Ok(v, rest)
  {
    UintRoundTrip(if v < 0 then v + Pow256(n) else v, n, rest);
  }

  function ParseUint32(bs: Bytes): Parse<Uint32> {
    var (v, rest) :- ParseUint(bs, 4);
    Powers(); FromLEInRange(bs[..4]);
    Ok(v, rest)
  }

  function ParseUint256(bs: Bytes): Parse<Uint256> {
    var (v, rest) :- ParseUint(bs, 32);
    FromLEInRange(bs[..32]);
    Ok(v, rest)
  }

  function ParseInt32(bs: Bytes): Parse<Int32> {
    var (v, rest) :- ParseInt(bs, 4);
    Powers(); FromLEInRange(bs[..4]);
    Ok(v, rest)
  }

  function ParseInt64(bs: Bytes): Parse<Int64> {
    var (v, rest) :- ParseInt(bs, 8);
    Powers(); FromLEInRange(bs[..8]);
    Ok(v, rest)
  }

  // ---- compact size ----

  function SerCompactSize(item: Uint64): Bytes {
    if item < 253 then [item]
    else if item < TWO_16 then [253] + LE(item, 2)
    else if item < TWO_32 then [254] + LE(item, 4)
    else [255] + LE(item, 8)
  }

  function ParseCompactSize(bs: Bytes): Parse<Uint64> {
    Powers();
    var (first, rest) :- ParseUint(bs, 1);
    if first < 253 then Ok(first, rest)
    else if first == 253 then ParseWide(rest, 2)
    else if first == 254 then ParseWide(rest, 4)
    else ParseWide(rest, 8)
  }

  function ParseWide(bs: Bytes, n: nat): Parse<Uint64>
    requires n in {2, 4, 8}
  {
    Powers();
    var (v, rest) :- ParseUint(bs, n);
    FromLEInRange(bs[..n]);
    Ok(v, rest)
  }

  lemma {:induction false} Powers()
    ensures Pow256(1) == 256 && Pow256(2) == TWO_16 && Pow256(4) == TWO_32 && Pow256(8) == TWO_64
  {
    assert Pow256(3) == 256 * Pow256(2) && Pow256(2) == 256 * Pow256(1) && Pow256(1) == 256 * Pow256(0);
    Pow256Add(4, 4);
  }

  lemma {:induction false} FirstByte(b: Byte, tail: Bytes)
    ensures ParseUint([b] + tail, 1) == Ok(b, tail)
  {
    assert ([b] + tail)[..1] == [b] && ([b] + tail)[1..] == tail;
    assert FromLE([b]) == b + 256 * FromLE([]);
  }

  lemma {:induction false} CompactSizeRoundTrip(item: Uint64, rest: Bytes)
    ensures ParseCompactSize(SerCompactSize(item) + rest) == Ok(item, rest)
  {
    Powers();
    if item < 253 {
      FirstByte(item, rest);
    } else {
      var w, tag := if item < TWO_16 then 2 else if item < TWO_32 then 4 else 8,
                    if item < TWO_16 then 253 else if item < TWO_32 then 254 else 255;
      assert SerCompactSize(item) + rest == [tag] + (LE(item, w) + rest);
      FirstByte(tag, LE(item, w) + rest);
      UintRoundTrip(item, w, rest);
    }
  }

  /** The value itself, or 253, 254 or 255 and the value in two, four or eight bytes. */
  lemma {:induction false} CompactSizeFormat(item: Uint64)
    ensures var bs := SerCompactSize(item);
      && (item < 253 ==> bs == [item])
      && (item >= 253 ==>
            var w := |bs| - 1;
            && bs[0] == (if item < 0x1_0000 then 253 else if item < 0x1_0000_0000 then 254 else 255)
            && w == (if item < 0x1_0000 then 2 else if item < 0x1_0000_0000 then 4 else 8)
            && FromLE(bs[1..]) == item)
  {
    Powers();
    if item >= 253 {
      var w := |SerCompactSize(item)| - 1;
      assert SerCompactSize(item)[1..] == LE(item, w);
      SmallIsKept(item, w);
    }
  }

  function Marker(w: nat): Byte {
    if w == 2 then 253 else if w == 4 then 254 else 255
  }

  /** A marker byte and the `w` bytes it announces. */
  lemma {:induction false} WideReads(tail: Bytes, w: nat)
    requires w in {2, 4, 8} && |tail| >= w
    ensures FromLE(tail[..w]) < TWO_64
    ensures ParseCompactSize([Marker(w)] + tail) == Ok(FromLE(tail[..w]), tail[w..])
  {
    Powers();
    FirstByte(Marker(w), tail);
    FromLEInRange(tail[..w]);
  }

  lemma {:induction false} WideIsShortest(bs: Bytes, w: nat)
    requires w in {2, 4, 8} && |bs| == w && FromLE(bs) < TWO_64
    ensures |SerCompactSize(FromLE(bs))| <= 1 + w
    ensures |SerCompactSize(FromLE(bs))| == 1 + w ==> SerCompactSize(FromLE(bs)) == [Marker(w)] + bs
  {
    Powers();
    FromLEInRange(bs);
    LEOfFromLE(bs);
  }

  lemma {:induction false} WideIsCanonical(tail: Bytes, w: nat)
    requires w in {2, 4, 8} && |tail| >= w
    ensures var bs, p := [Marker(w)] + tail, ParseCompactSize([Marker(w)] + tail);
      && p.Ok? && |bs| - |p.rest| == 1 + w && |SerCompactSize(p.value)| <= 1 + w
      && (|SerCompactSize(p.value)| == 1 + w ==> bs == SerCompactSize(p.value) + p.rest)
  {
    WideReads(tail, w);
    WideIsShortest(tail[..w], w);
    Append3([Marker(w)], tail[..w], tail[w..]);
    assert tail == tail[..w] + tail[w..];
  }

  /** No bytes read as a value are fewer than its encoding, and none but the encoding are as few. */
  lemma {:induction false} CompactSizeIsShortest(bs: Bytes)
    requires ParseCompactSize(bs).Ok?
    ensures var p := ParseCompactSize(bs);
      && |SerCompactSize(p.value)| <= |bs| - |p.rest|
      && (|SerCompactSize(p.value)| == |bs| - |p.rest| <==> bs == SerCompactSize(p.value) + p.rest)
  {
    Powers();
    assert bs == [bs[0]] + bs[1..];
    FirstByte(bs[0], bs[1..]);
    if bs[0] >= 253 {
      WideIsCanonical(bs[1..], if bs[0] == 253 then 2 else if bs[0] == 254 then 4 else 8);
    }
  }

  // ---- strings ----

  function SerString(s: Vector<Byte>): Bytes {
    SerCompactSize(|s|) + s
  }

  /** `f.read(n)` returns what there is: a string cut short by the end of the stream is no error. */
  function ParseString(bs: Bytes): Parse<Vector<Byte>> {
    var (n, rest) :- ParseCompactSize(bs);
    Ok(rest[..Min(n, |rest|)], rest[Min(n, |rest|)..])
  }

  lemma {:induction false} StringRoundTrip(s: Vector<Byte>, rest: Bytes)
    ensures ParseString(SerString(s) + rest) == Ok(s, rest)
  {
    assert SerString(s) + rest == SerCompactSize(|s|) + (s + rest);
    CompactSizeRoundTrip(|s|, s + rest);
    assert (s + rest)[..|s|] == s && (s + rest)[|s|..] == rest;
  }

  /** A string that the stream cuts short is read as far as it goes, without an error. */
  lemma {:induction false} ShortString(n: Uint64, bs: Bytes)
    requires |bs| < n
    ensures ParseString(SerCompactSize(n) + bs) == Ok(bs, [])
  {
    CompactSizeRoundTrip(n, bs);
    assert bs[..|bs|] == bs && bs[|bs|..] == [];
  }

  // ---- vectors ----

  function SerAll<T>(ser: T -> Bytes, xs: seq<T>): Bytes {
    if xs == [] then [] else ser(xs[0]) + SerAll(ser, xs[1..])
  }

  lemma {:induction false} SerAllAppend<T>(ser: T -> Bytes, a: seq<T>, b: seq<T>)
    ensures SerAll(ser, a + b) == SerAll(ser, a) + SerAll(ser, b)
  {
    if a == [] {
      assert a + b == b;
    } else {
      SerAllAppend(ser, a[1..], b);
      assert (a + b)[1..] == a[1..] + b;
      Append3(ser(a[0]), SerAll(ser, a[1..]), SerAll(ser, b));
    }
  }

  function SerVector<T>(ser: T -> Bytes, xs: Vector<T>): Bytes {
    SerCompactSize(|xs|) + SerAll(ser, xs)
  }

  function ParseAll<T>(parse: Parser<T>, n: nat, bs: Bytes): (r: Parse<seq<T>>)
    ensures r.Ok? ==> |r.value| == n
  {
    if n == 0 then Ok([], bs) else
    var (x, rest) :- parse(bs);
    var (xs, rest') :- ParseAll(parse, n - 1, rest);
    Ok([x] + xs, rest')
  }

  function ParseVector<T>(parse: Parser<T>, bs: Bytes): Parse<Vector<T>> {
    var (n, rest) :- ParseCompactSize(bs);
    ParseAll(parse, n, rest)
  }

  /** Every encoding of `x` is read back, whatever follows it. */
  ghost predicate RoundTrips<T(!new)>(ser: T -> Bytes, parse: Parser<T>, x: T) {
    forall rest :: parse(ser(x) + rest) == Ok(x, rest)
  }

  lemma {:induction false} AllRoundTrip<T(!new)>(ser: T -> Bytes, parse: Parser<T>, xs: seq<T>, rest: Bytes)
    requires forall x :: x in xs ==> RoundTrips(ser, parse, x)
    ensures ParseAll(parse, |xs|, SerAll(ser, xs) + rest) == Ok(xs, rest)
  {
    if xs == [] {
      assert SerAll(ser, xs) + rest == rest;
    } else {
      var tail := SerAll(ser, xs[1..]) + rest;
      assert SerAll(ser, xs) + rest == ser(xs[0]) + tail;
      assert RoundTrips(ser, parse, xs[0]);
      AllRoundTrip(ser, parse, xs[1..], rest);
      assert [xs[0]] + xs[1..] == xs;
    }
  }

  lemma {:induction false} VectorRoundTrip<T(!new)>(ser: T -> Bytes, parse: Parser<T>, xs: Vector<T>, rest: Bytes)
    requires forall x :: x in xs ==> RoundTrips(ser, parse, x)
    ensures ParseVector(parse, SerVector(ser, xs) + rest) == Ok(xs, rest)
  {
    assert SerVector(ser, xs) + rest == SerCompactSize(|xs|) + (SerAll(ser, xs) + rest);
    CompactSizeRoundTrip(|xs|, SerAll(ser, xs) + rest);
    AllRoundTrip(ser, parse, xs, rest);
  }

  /** A vector whose bytes end before its elements do, or hold something else, fails as a whole. */
  lemma {:induction false} CutVectorFails<T(!new)>(ser: T -> Bytes, parse: Parser<T>, xs: seq<T>, n: nat, junk: Bytes)
    requires forall x :: x in xs ==> RoundTrips(ser, parse, x)
    requires |xs| < n && parse(junk).Fail?
    ensures ParseAll(parse, n, SerAll(ser, xs) + junk).Fail?
  {
    if xs == [] {
      assert SerAll(ser, xs) + junk == junk;
    } else {
      var tail := SerAll(ser, xs[1..]) + junk;
      assert SerAll(ser, xs) + junk == ser(xs[0]) + tail;
      assert RoundTrips(ser, parse, xs[0]);
      CutVectorFails(ser, parse, xs[1..], n - 1, junk);
    }
  }

  /** A decoder never gives back more than it was given. */
  ghost predicate Consuming<T>(parse: Parser<T>) {
    forall bs :: parse(bs).Ok? ==> |parse(bs).rest| <= |bs|
  }

  lemma {:induction false} AllConsumes<T>(parse: Parser<T>, n: nat, bs: Bytes)
    requires Consuming(parse)
    ensures ParseAll(parse, n, bs).Ok? ==> |ParseAll(parse, n, bs).rest| <= |bs|
  {
    if n > 0 && parse(bs).Ok? {
      AllConsumes(parse, n - 1, parse(bs).rest);
    }
  }

  // ---- the looping readers and writers ----

  /** `BytesIO`, by what is still unread. */
  class ByteStream {
    var rest: Bytes

    constructor (data: Bytes)
      ensures rest == data
    {
      rest := data;
    }

    method Read(n: nat) returns (r: Bytes)
      modifies this
      ensures r == old(rest)[..Min(n, |old(rest)|)] && rest == old(rest)[Min(n, |old(rest)|)..]
    {
      var k := Min(n, |rest|);
      r, rest := rest[..k], rest[k..];
    }
  }

  lemma {:induction false} OneMoreWord(rs: Bytes, v: nat, m: nat)
    ensures rs + LE(v % TWO_32, 4) + LE(v / TWO_32, m) == rs + LE(v, 4 + m)
  {
    LEWord(v, m);
    Append3(rs, LE(v % TWO_32, 4), LE(v / TWO_32, m));
  }

  /** Eight little-endian words, least significant first. Bits above 256 are dropped silently. */
  method SerUint256(u: nat) returns (rs: Bytes)
    ensures |rs| == 32
    ensures rs == LE(u, |rs|) && FromLE(rs) == u % Pow256(|rs|)
  {
    rs := [];
    var v: nat := u;
    ghost var width: nat, left: nat := 32, 32;
    for i := 0 to 8
      invariant left == 32 - 4 * i && |rs| == 4 * i
      invariant rs + LE(v, left) == LE(u, width)
    {
      left := left - 4;
      OneMoreWord(rs, v, left);
      rs := rs + LE(v % TWO_32, 4);
      v := v / TWO_32;
    }
    FromLEOfLE(u, width);
  }

  lemma {:induction false} SumOfWords(data: Bytes, k: nat, n: nat)
    requires k + n <= |data|
    ensures FromLE(data[..k + n]) == FromLE(data[..k]) + FromLE(data[k..][..n]) * Pow256(k)
    ensures data[k..][n..] == data[k + n..]
  {
    assert data[..k + n] == data[..k] + data[k..][..n];
    FromLEAppend(data[..k], data[k..][..n]);
  }

  /** Reads 32 bytes, or fails where a word is cut short. */
  method DeserUint256(f: ByteStream) returns (r: Option<nat>)
    modifies f
    ensures match ParseUint(old(f.rest), 32)
            case Ok(v, rest) => r == Some(v) && f.rest == rest
            case Fail => r == None
  {
    var sum := 0;
    ghost var data := f.rest;
    for i := 0 to 8
      invariant 4 * i <= |data| && f.rest == data[4 * i..]
      invariant sum == FromLE(data[..4 * i])
    {
      var word := f.Read(4);
      if |word| < 4 {
        return None;
      }
      SumOfWords(data, 4 * i, 4);
      sum := sum + FromLE(word) * Pow256(4 * i);
    }
    return Some(sum);
  }

  /** The loop of `deser_vector`; `parse` is the element class's `deserialize`. */
  method DeserVector<T>(f: ByteStream, parse: Parser<T>) returns (r: Option<seq<T>>)
    modifies f
    ensures match ParseVector(parse, old(f.rest))
            case Ok(xs, rest) => r == Some(xs) && f.rest == rest
            case Fail => r == None
  {
    var size := ParseCompactSize(f.rest);
    if size.Fail? {
      return None;
    }
    f.rest := size.rest;
    var xs: seq<T> := [];
    PrependNothing(ParseAll(parse, size.value, f.rest));
    for i := 0 to size.value
      invariant ParseVector(parse, old(f.rest)) == Prepend(xs, ParseAll(parse, size.value - i, f.rest))
    {
      var next := parse(f.rest);
      if next.Fail? {
        return None;
      }
      PrependTwice(xs, next.value, ParseAll(parse, size.value - i - 1, next.rest));
      xs := xs + [next.value];
      f.rest := next.rest;
    }
    assert xs + [] == xs;
    return Some(xs);
  }

  function Prepend<T>(xs: seq<T>, p: Parse<seq<T>>): Parse<seq<T>> {
    match p
    case Fail => Fail
    case Ok(ys, rest) => Ok(xs + ys, rest)
  }

  lemma {:induction false} PrependNothing<T>(p: Parse<seq<T>>)
    ensures Prepend([], p) == p
  {
    if p.Ok? {
      assert [] + p.value == p.value;
    }
  }

  lemma {:induction false} PrependTwice<T>(xs: seq<T>, x: T, p: Parse<seq<T>>)
    ensures Prepend(xs + [x], p) == Prepend(xs, Prepend([x], p))
  {
    if p.Ok? {
      assert xs + [x] + p.value == xs + ([x] + p.value);
    }
  }
}
