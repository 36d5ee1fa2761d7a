/** `node_to_str` and `str_to_node` of python/src/merkle.py: hex text of the reversed bytes. */
module Hex {
  import opened Common

  function Digit(n: int): char
    requires 0 <= n < 16
  {
    "0123456789abcdef"[n]
  }

  function DigitValue(c: char): int {
    if '0' <= c <= '9' then c as int - '0' as int
    else if 'a' <= c <= 'f' then c as int - 'a' as int + 10
    else if 'A' <= c <= 'F' then c as int - 'A' as int + 10
    else -1
  }

  predicate IsSpace(c: char) {
    c == ' ' || 9 <= c as int <= 13
  }

  /** `value[::-1].hex()`: two digits a byte, last byte first. */
  function NodeToStr(bs: Bytes): string {
    if bs == [] then [] else
    var last := bs[|bs| - 1];
    [Digit(last / 16), Digit(last % 16)] + NodeToStr(bs[..|bs| - 1])
  }

  /**
   * `bytes.fromhex(s)[::-1]`: digits of either case, white space allowed between bytes, the first byte
   * of the text last. None is the ValueError.
   */
  function StrToNode(s: string): Option<Bytes> {
    if s == [] then Some([])
    else if IsSpace(s[0]) then StrToNode(s[1..])
    else if |s| == 1 || DigitValue(s[0]) < 0 || DigitValue(s[1]) < 0 then None
    else
      match StrToNode(s[2..])
      case None => None
      case Some(bs) => Some(bs + [16 * DigitValue(s[0]) + DigitValue(s[1])])
  }

  lemma {:induction false} DigitRoundTrip(n: int)
    requires 0 <= n < 16
    ensures DigitValue(Digit(n)) == n && !IsSpace(Digit(n))
  {
  }

  lemma {:induction false} DigitsParse(b: Byte, tail: string)
    ensures StrToNode([Digit(b / 16), Digit(b % 16)] + tail) ==
            match StrToNode(tail) case None => None case Some(bs) => Some(bs + [b])
  {
    DigitRoundTrip(b / 16);
    DigitRoundTrip(b % 16);
    assert ([Digit(b / 16), Digit(b % 16)] + tail)[2..] == tail;
  }

  /** Text written for a node reads back as that node; so two nodes never share a text. */
  lemma {:induction false} NodeRoundTrip(bs: Bytes)
    ensures StrToNode(NodeToStr(bs)) == Some(bs)
  {
    if bs != [] {
      var init := bs[..|bs| - 1];
      NodeRoundTrip(init);
      DigitsParse(bs[|bs| - 1], NodeToStr(init));
      assert init + [bs[|bs| - 1]] == bs;
    }
  }

  /** The text has two digits a byte, those of the last byte first. */
  lemma {:induction false} TextIsReversed(bs: Bytes, i: nat)
    requires i < |bs|
    ensures |NodeToStr(bs)| == 2 * |bs|
    ensures NodeToStr(bs)[2 * i] == Digit(bs[|bs| - 1 - i] / 16)
    ensures NodeToStr(bs)[2 * i + 1] == Digit(bs[|bs| - 1 - i] % 16)
  {
    var init, last := bs[..|bs| - 1], bs[|bs| - 1];
    var pair := [Digit(last / 16), Digit(last % 16)];
    assert NodeToStr(bs) == pair + NodeToStr(init);
    if i > 0 {
      TextIsReversed(init, i - 1);
    } else if init != [] {
      TextIsReversed(init, 0);
    }
  }

  predicate AllDigits(s: string) {
    |s| % 2 == 0 && forall i :: 0 <= i < |s| ==> DigitValue(s[i]) >= 0
  }

  /** A digit's value does not depend on its case, and no white space is a digit. */
  lemma {:induction false} DigitsInWords(n: int)
    requires 0 <= n < 16
    ensures DigitValue("0123456789abcdef"[n]) == DigitValue("0123456789ABCDEF"[n]) == n
  {
  }

  lemma {:induction false} DigitIsNoSpace(c: char)
    requires DigitValue(c) >= 0
    ensures !IsSpace(c)
  {
  }

  /** Any text of digits, two a byte and of either case, is read, its first byte last. */
  lemma {:induction false} AnyHexReads(s: string, i: nat)
    requires AllDigits(s) && 2 * i < |s|
    ensures StrToNode(s).Some? && |StrToNode(s).value| == |s| / 2
    ensures var bs := StrToNode(s).value; bs[|bs| - 1 - i] == 16 * DigitValue(s[2 * i]) + DigitValue(s[2 * i + 1])
  {
    DigitIsNoSpace(s[0]);
    var rest := s[2..];
    if rest == [] {
    } else if i > 0 {
      AnyHexReads(rest, i - 1);
    } else {
      AnyHexReads(rest, 0);
    }
  }

  lemma {:induction false} PairReads(x: char, y: char, rest: string)
    requires DigitValue(x) >= 0 && DigitValue(y) >= 0
    ensures StrToNode([x, y] + rest) ==
            match StrToNode(rest) case None => None case Some(bs) => Some(bs + [16 * DigitValue(x) + DigitValue(y)])
  {
    DigitIsNoSpace(x);
    assert ([x, y] + rest)[2..] == rest;
  }

  lemma {:induction false} PairFirst(a: string, rest: string)
    requires |a| >= 2
    ensures a + rest == [a[0], a[1]] + (a[2..] + rest)
  {
  }

  /** White space between bytes is skipped ... */
  lemma {:induction false} SpaceIsSkipped(a: string, space: char, b: string)
    requires AllDigits(a) && IsSpace(space)
    ensures StrToNode(a + ([space] + b)) == StrToNode(a + b)
  {
    if a == [] {
      assert a + ([space] + b) == [space] + b && a + b == b;
    } else {
      SpaceIsSkipped(a[2..], space, b);
      PairFirst(a, [space] + b);
      PairFirst(a, b);
      PairReads(a[0], a[1], a[2..] + ([space] + b));
      PairReads(a[0], a[1], a[2..] + b);
    }
  }

  /** ... and any other character that is no digit is an error. */
  lemma {:induction false} BadCharFails(s: string, i: nat)
    requires i < |s| && DigitValue(s[i]) < 0 && !IsSpace(s[i])
    ensures StrToNode(s) == None
  {
    if IsSpace(s[0]) {
      BadCharFails(s[1..], i - 1);
    } else if i >= 2 {
      BadCharFails(s[2..], i - 2);
    }
  }
}
