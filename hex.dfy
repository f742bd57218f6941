/**
 Rendering of a digest as text: every byte is formatted with `{:02X}`
 (two upper-case hexadecimal digits, zero-padded) and the pieces are
 joined with the empty separator (src/main.rs:63-64).

 `Parse` is the inverse reading used to state the round trip; the program
 itself never reads a digest back.
 */
module Hex {
  import opened Wrappers

  newtype Byte = b: int | 0 <= b < 256

  /** The sixteen characters `{:X}` writes: `0`-`9`, then upper-case `A`-`F`. */
  predicate IsDigit(c: char) {
    '0' <= c <= '9' || 'A' <= c <= 'F'
  }

  function Digit(d: int): (c: char)
    requires 0 <= d < 16
    ensures IsDigit(c)
  {
    if d < 10 then ('0' as int + d) as char else ('A' as int + d - 10) as char
  }

  /** The value of an upper-case hexadecimal digit; lower case is not a digit here. */
  function DigitValue(c: char): (d: Option<int>)
    ensures d.Some? <==> IsDigit(c)
    ensures d.Some? ==> 0 <= d.value < 16 && Digit(d.value) == c
  {
    if '0' <= c <= '9' then Some(c as int - '0' as int)
    else if 'A' <= c <= 'F' then Some(c as int - 'A' as int + 10)
    else None
  }

  /** `format!("{:02X}", b)`: high nibble first, then low nibble. */
  function ByteToHex(b: Byte): (s: string)
    ensures |s| == 2 && IsDigit(s[0]) && IsDigit(s[1])
    ensures DigitValue(s[0]) == Some(b as int / 16) && DigitValue(s[1]) == Some(b as int % 16)
  {
    [Digit(b as int / 16), Digit(b as int % 16)]
  }

  /** The joined rendering of a whole byte string. */
  function Render(bytes: seq<Byte>): (s: string)
    ensures |s| == 2 * |bytes|
    ensures forall i :: 0 <= i < |s| ==> IsDigit(s[i])
  {
    if bytes == [] then "" else ByteToHex(bytes[0]) + Render(bytes[1..])
  }

  /** Reads a string back two digits at a time; fails on an odd length or a non-digit. */
  function Parse(s: string): (r: Option<seq<Byte>>)
    decreases |s|
  {
    if s == [] then Some([])
    else if |s| == 1 then None
    else
      var hi, lo, rest := DigitValue(s[0]), DigitValue(s[1]), Parse(s[2..]);
      if hi.Some? && lo.Some? && rest.Some?
      then Some([(16 * hi.value + lo.value) as Byte] + rest.value)
      else None
  }

  /** Byte i of the input is rendered as characters 2i and 2i+1 of the output. */
  lemma {:induction false} RenderAt(bytes: seq<Byte>, i: nat)
    requires i < |bytes|
    ensures Render(bytes)[2 * i..2 * i + 2] == ByteToHex(bytes[i])
  {
    if i > 0 {
      RenderAt(bytes[1..], i - 1);
      assert Render(bytes) == ByteToHex(bytes[0]) + Render(bytes[1..]);
    }
  }

  /** Parsing a rendered byte in front of any text yields that byte in front of
      what the text parses to. */
  lemma ParseByte(b: Byte, rest: string)
    ensures Parse(ByteToHex(b) + rest)
         == if Parse(rest).Some? then Some([b] + Parse(rest).value) else None
  {
    var s := ByteToHex(b) + rest;
    var hi, lo := b as int / 16, b as int % 16;
    assert DigitValue(s[0]) == Some(hi) && DigitValue(s[1]) == Some(lo);
    assert s[2..] == rest;
    assert (16 * hi + lo) as Byte == b;
  }

  /** Reading the rendering back in pairs recovers the bytes. */
  lemma {:induction false} ParseRender(bytes: seq<Byte>)
    ensures Parse(Render(bytes)) == Some(bytes)
  {
    if bytes != [] {
      ParseRender(bytes[1..]);
      ParseByte(bytes[0], Render(bytes[1..]));
      assert [bytes[0]] + bytes[1..] == bytes;
    }
  }

  /** Whatever parses is exactly the rendering of what it parses to:
      only upper-case, even-length digit strings are renderings. */
  lemma {:induction false} RenderParse(s: string, bytes: seq<Byte>)
    requires Parse(s) == Some(bytes)
    ensures Render(bytes) == s
    decreases |s|
  {
    if s != [] {
      var hi := DigitValue(s[0]).value;
      var lo := DigitValue(s[1]).value;
      var rest := Parse(s[2..]).value;
      RenderParse(s[2..], rest);
      assert bytes == [(16 * hi + lo) as Byte] + rest;
      assert bytes[1..] == rest;
      assert ((16 * hi + lo) as Byte) as int / 16 == hi;
      assert ((16 * hi + lo) as Byte) as int % 16 == lo;
      assert s == s[..2] + s[2..];
    }
  }

  /** Distinct byte strings render to distinct keys, so grouping by the
      rendered string is grouping by the digest itself. */
  lemma RenderInjective(a: seq<Byte>, b: seq<Byte>)
    ensures Render(a) == Render(b) <==> a == b
  {
    ParseRender(a);
    ParseRender(b);
  }
}
