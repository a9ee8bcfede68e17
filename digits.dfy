/**
 * Character classes and digit arithmetic shared by the assembler's lexer,
 * its symbol listing and the formatter's number printers.
 */
module Digits {
  import opened Base

  /** The digit characters the programs print, lower-case for 10..15. */
  const HexChars: string := "0123456789abcdef"

  predicate IsDigit(c: char) { '0' <= c <= '9' }

  predicate IsAlpha(c: char) { 'a' <= c <= 'z' || 'A' <= c <= 'Z' }

  /** `ishex`: a decimal digit or a letter a-f in either case. */
  predicate IsHexChar(c: char)
  {
    'A' <= c <= 'F' || 'a' <= c <= 'f' || '0' <= c <= '9'
  }

  /** The character for a digit value below 16. */
  function HexDigit(n: nat): (c: char)
    requires n < 16
    ensures IsHexChar(c) && !('A' <= c <= 'F')
    ensures n < 10 <==> IsDigit(c)
  {
    HexChars[n]
  }

  /** The digit value the lexer assigns to a hex character: letters from 10, either case. */
  function HexValue(c: char): (d: nat)
    requires IsHexChar(c)
    ensures d < 16
    ensures d < 10 <==> IsDigit(c)
  {
    if c >= 'a' then c as int - 'a' as int + 10
    else if c >= 'A' then c as int - 'A' as int + 10
    else c as int - '0' as int
  }

  /** Reading back a printed digit gives its value. */
  lemma HexValueOfDigit(n: nat)
    requires n < 16
    ensures HexValue(HexDigit(n)) == n
  {
  }

  predicate AllHex(s: string)
  {
    forall i :: 0 <= i < |s| ==> IsHexChar(s[i])
  }

  /** The value of a digit string in `base`, most significant digit first (Horner's rule). */
  function Value(s: string, base: nat): nat
    requires AllHex(s)
  {
    if s == [] then 0 else Value(s[..|s| - 1], base) * base + HexValue(s[|s| - 1])
  }

  /** Every digit of `s` is a digit of `base`. */
  predicate DigitsIn(s: string, base: nat)
  {
    AllHex(s) && forall i :: 0 <= i < |s| ==> HexValue(s[i]) < base
  }

  /** Appending a digit multiplies the value by the base and adds the digit. */
  lemma {:induction false} ValueSnoc(s: string, c: char, base: nat)
    requires AllHex(s) && IsHexChar(c)
    ensures AllHex(s + [c]) && Value(s + [c], base) == Value(s, base) * base + HexValue(c)
  {
    assert (s + [c])[..|s|] == s;
  }

  /** A 16-bit value is its four nibbles, most significant first, recombined. */
  lemma NibbleSplit(v: u16)
    ensures ((v / 0x1000 * 16 + v / 0x100 % 16) * 16 + v / 0x10 % 16) * 16 + v % 16 == v
  {
    assert v / 0x1000 * 16 + v / 0x100 % 16 == v / 0x100;
    assert v / 0x100 * 16 + v / 0x10 % 16 == v / 0x10;
    assert v / 0x10 * 16 + v % 16 == v;
  }

  /** Four hex digits of a 16-bit value, most significant first, as the symbol listing and `printhex16` print it. */
  function Hex16(v: u16): (r: string)
    ensures |r| == 4
  {
    [HexDigit(v / 0x1000), HexDigit(v / 0x100 % 16), HexDigit(v / 0x10 % 16), HexDigit(v % 16)]
  }

  /** The four digits are hex digits whose value is `v`. */
  lemma Hex16Value(v: u16)
    ensures DigitsIn(Hex16(v), 16) && Value(Hex16(v), 16) == v
  {
    var d0, d1, d2, d3 := v / 0x1000, v / 0x100 % 16, v / 0x10 % 16, v % 16;
    HexValueOfDigit(d0);
    HexValueOfDigit(d1);
    HexValueOfDigit(d2);
    HexValueOfDigit(d3);
    var c0, c1, c2, c3 := HexDigit(d0), HexDigit(d1), HexDigit(d2), HexDigit(d3);
    assert Hex16(v) == [c0] + [c1] + [c2] + [c3];
    assert [c0] == [] + [c0];
    ValueSnoc([], c0, 16);
    ValueSnoc([c0], c1, 16);
    ValueSnoc([c0] + [c1], c2, 16);
    ValueSnoc([c0] + [c1] + [c2], c3, 16);
    NibbleSplit(v);
  }

  /** Two different values never print the same: the listing's addresses are unambiguous. */
  lemma Hex16Injective(a: u16, b: u16)
    requires Hex16(a) == Hex16(b)
    ensures a == b
  {
    Hex16Value(a);
    Hex16Value(b);
  }

  /**
   * `s` is the decimal representation of `v`: digits only, no leading zero
   * except for "0" itself, and the digits' value is `v`.
   */
  predicate IsDecimalOf(s: string, v: nat)
  {
    |s| > 0 && (forall i :: 0 <= i < |s| ==> IsDigit(s[i]))
    && (s[0] == '0' ==> |s| == 1)
    && Value(s, 10) == v
  }
}
