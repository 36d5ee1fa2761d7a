/**
 * `ser_varint` and `deser_varint` of python/src/p2p_framework/serial.py. The reader does not undo the
 * writer: it keeps nothing of the bytes before the last.
 */
module Varints {
  import opened Arithmetic
  import opened Common
  import opened Serial

  /** Base-128 digits, most significant first, each digit but the last marked and one too small. */
  function SerVarint(v: nat, marked: bool): Bytes {
    (if v <= 0x7F then [] else SerVarint(v / 128 - 1, true)) + [v % 128 + if marked then 128 else 0]
  }

  function Reversed(s: Bytes): Bytes {
    if s == [] then [] else [Last(s)] + Reversed(s[..|s| - 1])
  }

  lemma {:induction false} DigitsBefore(v: nat, marked: bool, r: Bytes, tail: Bytes)
    requires v > 0x7F && tail == Reversed(r)
    ensures SerVarint(v, marked) + tail ==
            SerVarint(v / 128 - 1, true) + Reversed(r + [v % 128 + if marked then 128 else 0])
  {
    var d: Byte := v % 128 + if marked then 128 else 0;
    assert (r + [d])[..|r|] == r;
    Append3(SerVarint(v / 128 - 1, true), [d], tail);
  }

  lemma {:induction false} DigitFirst(v: nat, marked: bool, r: Bytes)
    requires v <= 0x7F
    ensures Reversed(r + [v % 128 + if marked then 128 else 0]) == SerVarint(v, marked) + Reversed(r)
  {
    assert (r + [v % 128 + if marked then 128 else 0])[..|r|] == r;
  }

  /** The loop of `ser_varint`: digits are found from the last to the first and reversed at the end. */
  method WriteVarint(u: nat) returns (bytes: Bytes)
    ensures bytes == SerVarint(u, false)
  {
    var v, length := u, 0;
    var r: Bytes := [];
    assert SerVarint(u, false) + Reversed([]) == SerVarint(u, false);
    while true
      invariant v >= 0 && length >= 0 && SerVarint(v, length > 0) + Reversed(r) == SerVarint(u, false)
      decreases v
    {
      var digit: Byte := v % 128 + if length > 0 then 128 else 0;
      if v <= 0x7F {
        DigitFirst(v, length > 0, r);
        return Reversed(r + [digit]);
      }
      DigitsBefore(v, length > 0, r, Reversed(r));
      r := r + [digit];
      v := v / 128 - 1;
      length := length + 1;
    }
  }

  /** What the digits mean: each marked one stands for one more. */
  function Value(bs: Bytes, n: nat): nat
    requires n <= |bs|
  {
    if n == 0 then 0
    else 128 * Value(bs, n - 1) + bs[n - 1] % 128 + if bs[n - 1] >= 128 then 1 else 0
  }

  lemma {:induction false} ValueAgrees(a: Bytes, b: Bytes, n: nat)
    requires n <= |a| && n <= |b| && forall i :: 0 <= i < n ==> a[i] == b[i]
    ensures Value(a, n) == Value(b, n)
  {
    if n > 0 {
      ValueAgrees(a, b, n - 1);
    }
  }

  function DigitOf(v: nat, marked: bool): (d: Byte)
    ensures d % 128 == v % 128 && (d >= 128 <==> marked)
  {
    v % 128 + if marked then 128 else 0
  }

  lemma {:induction false} ValueOfOneMore(init: Bytes, d: Byte)
    ensures var bs := init + [d]; Value(bs, |bs|) == 128 * Value(init, |init|) + d % 128 + if d >= 128 then 1 else 0
  {
    ValueAgrees(init, init + [d], |init|);
  }

  lemma {:induction false} WrittenStep(v: nat, marked: bool)
    ensures SerVarint(v, marked) == (if v <= 0x7F then [] else SerVarint(v / 128 - 1, true)) + [DigitOf(v, marked)]
  {
  }

  /** The bytes written have the number as their value ... */
  lemma {:induction false} WrittenHasValue(v: nat, marked: bool)
    ensures Value(SerVarint(v, marked), |SerVarint(v, marked)|) == v + if marked then 1 else 0
  {
    WrittenStep(v, marked);
    if v > 0x7F {
      WrittenHasValue(v / 128 - 1, true);
      ValueOfOneMore(SerVarint(v / 128 - 1, true), DigitOf(v, marked));
    } else {
      ValueOfOneMore([], DigitOf(v, marked));
    }
  }

  /** ... and only the last is unmarked. */
  lemma {:induction false} OnlyLastUnmarked(v: nat, marked: bool, i: nat)
    requires i < |SerVarint(v, marked)|
    ensures SerVarint(v, marked)[i] >= 128 <==> i < |SerVarint(v, marked)| - 1 || marked
  {
    WrittenStep(v, marked);
    if v > 0x7F && i < |SerVarint(v, marked)| - 1 {
      OnlyLastUnmarked(v / 128 - 1, true, i);
    }
  }

  /** What `deser_varint` reads: `(n << 7) | (n & 0x7F)` of the first unmarked byte `n`. */
  function ParseVarint(bs: Bytes): Parse<nat>
    decreases |bs|
  {
    var (n, rest) :- ParseUint(bs, 1);
    if n >= 128 then ParseVarint(rest) else Ok(n * 128 + n % 128, rest)
  }

  method ReadVarint(f: ByteStream) returns (r: Option<nat>)
    modifies f
    ensures match ParseVarint(old(f.rest))
            case Ok(v, rest) => r == Some(v) && f.rest == rest
            case Fail => r == None
  {
    while true
      invariant ParseVarint(f.rest) == ParseVarint(old(f.rest))
      decreases |f.rest|
    {
      var byte := f.Read(1);
      if |byte| < 1 {
        return None;
      }
      var n := FromLE(byte);
      if n < 128 {
        return Some(n * 128 + n % 128);
      }
    }
  }

  lemma {:induction false} MarkedDigitsAreSkipped(v: nat, tail: Bytes)
    ensures ParseVarint(SerVarint(v, true) + tail) == ParseVarint(tail)
  {
    var d: Byte := v % 128 + 128;
    if v <= 0x7F {
      assert SerVarint(v, true) + tail == [d] + tail;
    } else {
      Append3(SerVarint(v / 128 - 1, true), [d], tail);
      MarkedDigitsAreSkipped(v / 128 - 1, [d] + tail);
    }
    FirstByte(d, tail);
  }

  /** Only the last digit is read, and it is counted twice. */
  lemma {:induction false} ReadsLastDigit(v: nat, rest: Bytes)
    ensures ParseVarint(SerVarint(v, false) + rest) == Ok(129 * (v % 128), rest)
  {
    var d: Byte := v % 128;
    if v <= 0x7F {
      assert SerVarint(v, false) + rest == [d] + rest;
    } else {
      Append3(SerVarint(v / 128 - 1, true), [d], rest);
      MarkedDigitsAreSkipped(v / 128 - 1, [d] + rest);
    }
    FirstByte(d, rest);
  }

  lemma {:induction false} DoubledIffMultiple(v: nat)
    ensures 129 * (v % 128) == v <==> v % 129 == 0 && v / 129 < 128
  {
    if v % 129 == 0 && v / 129 < 128 {
      DivUnique(v, 128, v / 129, v / 129);
    }
  }

  /** So a number is read back exactly when it is one of the first 128 multiples of 129. */
  lemma {:induction false} VarintRoundTripIff(v: nat, rest: Bytes)
    ensures ParseVarint(SerVarint(v, false) + rest) == Ok(v, rest) <==> v % 129 == 0 && v / 129 < 128
  {
    ReadsLastDigit(v, rest);
    DoubledIffMultiple(v);
  }

  /** One is written as one byte and read back as 129. */
  lemma {:induction false} OneIsReadAs129()
    ensures ParseVarint(SerVarint(1, false)) == Ok(129, [])
  {
    ReadsLastDigit(1, []);
    assert SerVarint(1, false) + [] == SerVarint(1, false);
  }
}
