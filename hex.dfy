/**
 Go's `fmt.Sprintf("%x", b)` applied to a byte array or byte slice: every byte
 becomes two lower-case hexadecimal digits, high nibble first, with nothing
 between bytes. The agent uses it twice: to turn an MD5 digest into a token
 string and to turn a private key into the string it hands back.

 Decode is the inverse, written here as the partner that shows the encoding
 loses nothing: two different byte strings never give the same text.
 */
module Hex {
  import opened Wrappers

  /** Go's `byte`. */
  newtype byte = b: int | 0 <= b < 256

  /** The characters `%x` writes: `0`-`9` and `a`-`f`. */
  predicate IsDigit(c: char) {
    '0' <= c <= '9' || 'a' <= c <= 'f'
  }

  predicate IsLowerHex(s: string) {
    forall i :: 0 <= i < |s| ==> IsDigit(s[i])
  }

  /** The value of one lower-case hex digit. */
  function DigitValue(c: char): (v: int)
    requires IsDigit(c)
    ensures 0 <= v < 16
  {
    if c <= '9' then c as int - '0' as int else c as int - 'a' as int + 10
  }

  /** The digit `%x` writes for a nibble; DigitValue undoes it. */
  function Digit(v: int): (c: char)
    requires 0 <= v < 16
    ensures IsDigit(c) && DigitValue(c) == v
    ensures v < 10 <==> c <= '9'
  {
    if v < 10 then ('0' as int + v) as char else ('a' as int + v - 10) as char
  }

  /** `%x` of a byte sequence. */
  function Encode(bs: seq<byte>): (s: string)
    ensures |s| == 2 * |bs|
    ensures IsLowerHex(s)
    ensures forall i :: 0 <= i < |bs| ==>
              s[2 * i] == Digit(bs[i] as int / 16) && s[2 * i + 1] == Digit(bs[i] as int % 16)
  {
    if bs == [] then ""
    else
      var rest := Encode(bs[1..]);
      var s := [Digit(bs[0] as int / 16), Digit(bs[0] as int % 16)] + rest;
      assert forall i :: 1 <= i < |bs| ==> bs[i] == bs[1..][i - 1];
      s
  }

  /** Reads back what Encode writes; None on odd length or a character `%x` never writes. */
  function Decode(s: string): (r: Option<seq<byte>>)
    ensures r.Some? <==> |s| % 2 == 0 && IsLowerHex(s)
    ensures r.Some? ==> 2 * |r.value| == |s|
  {
    if s == [] then Some([])
    else if |s| < 2 || !IsDigit(s[0]) || !IsDigit(s[1]) then None
    else
      match Decode(s[2..])
      case None =>
        assert !IsLowerHex(s[2..]) || |s[2..]| % 2 != 0;
        None
      case Some(rest) =>
        assert forall i :: 2 <= i < |s| ==> s[i] == s[2..][i - 2];
        Some([(16 * DigitValue(s[0]) + DigitValue(s[1])) as byte] + rest)
  }

  lemma {:induction false} DecodeEncode(bs: seq<byte>)
    ensures Decode(Encode(bs)) == Some(bs)
  {
    if bs != [] {
      var s := Encode(bs);
      assert s[2..] == Encode(bs[1..]);
      DecodeEncode(bs[1..]);
      var b := bs[0] as int;
      assert DigitValue(s[0]) == b / 16 && DigitValue(s[1]) == b % 16;
      assert [bs[0]] + bs[1..] == bs;
    }
  }

  lemma {:induction false} EncodeDecode(s: string, bs: seq<byte>)
    requires Decode(s) == Some(bs)
    ensures Encode(bs) == s
  {
    if s != [] {
      var rest := Decode(s[2..]).value;
      EncodeDecode(s[2..], rest);
      assert bs == [(16 * DigitValue(s[0]) + DigitValue(s[1])) as byte] + rest;
      assert bs[1..] == rest;
      var b := bs[0] as int;
      assert b / 16 == DigitValue(s[0]) && b % 16 == DigitValue(s[1]);
      assert Encode(bs) == [Digit(b / 16), Digit(b % 16)] + Encode(rest);
      assert s == [s[0], s[1]] + s[2..];
    }
  }

  /** Distinct byte strings give distinct `%x` texts. */
  lemma EncodeInjective(a: seq<byte>, b: seq<byte>)
    requires Encode(a) == Encode(b)
    ensures a == b
  {
    DecodeEncode(a);
    DecodeEncode(b);
  }
}
