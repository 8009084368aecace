/** UTF-8: the encoder of section 3 and the well-formedness grammar of section 4 of RFC 3629. */
module Utf8 {

  type Byte = b: int | 0 <= b < 256

  type Scalar = c: int | 0 <= c < 0xD800 || 0xE000 <= c < 0x11_0000

  function Encode(c: Scalar): (bytes: seq<Byte>)
    ensures 1 <= |bytes| <= 4
  {
    var x, y, z := c / 64, c / 64 / 64, c / 64 / 64 / 64;
    if c < 0x80 then [c]
    else if c < 0x800 then [0xC0 + x, 0x80 + c % 64]
    else if c < 0x1_0000 then [0xE0 + y, 0x80 + x % 64, 0x80 + c % 64]
    else [0xF0 + z, 0x80 + y % 64, 0x80 + x % 64, 0x80 + c % 64]
  }

  function EncodeAll(text: seq<Scalar>): seq<Byte> {
    if text == [] then [] else Encode(text[0]) + EncodeAll(text[1..])
  }

  predicate Tail(b: Byte) { 0x80 <= b <= 0xBF }

  predicate SecondOfThree(first: Byte, second: Byte) {
    match first
    case 0xE0 => 0xA0 <= second <= 0xBF
    case 0xED => 0x80 <= second <= 0x9F
    case _ => 0xE1 <= first <= 0xEF && Tail(second)
  }

  predicate SecondOfFour(first: Byte, second: Byte) {
    match first
    case 0xF0 => 0x90 <= second <= 0xBF
    case 0xF4 => 0x80 <= second <= 0x8F
    case _ => 0xF1 <= first <= 0xF3 && Tail(second)
  }

  /** Length of the well-formed character at the front, or 0 if there is none. */
  function CharLength(s: seq<Byte>): (n: nat)
    ensures n <= |s| && n <= 4
  {
    if s == [] then 0
    else if s[0] <= 0x7F then 1
    else if |s| >= 2 && 0xC2 <= s[0] <= 0xDF && Tail(s[1]) then 2
    else if |s| >= 3 && SecondOfThree(s[0], s[1]) && Tail(s[2]) then 3
    else if |s| >= 4 && SecondOfFour(s[0], s[1]) && Tail(s[2]) && Tail(s[3]) then 4
    else 0
  }

  /** `utf8.ValidString`. */
  predicate Valid(s: seq<Byte>) {
    s == [] || (CharLength(s) > 0 && Valid(s[CharLength(s)..]))
  }

  /** `k` is the end of a whole number of characters of `s`. */
  predicate Boundary(s: seq<Byte>, k: nat) {
    k == 0 || (0 < CharLength(s) <= k && Boundary(s[CharLength(s)..], k - CharLength(s)))
  }

  lemma EncodeWellFormed(c: Scalar, rest: seq<Byte>)
    ensures CharLength(Encode(c) + rest) == |Encode(c)|
  {
    var x, y, z := c / 64, c / 64 / 64, c / 64 / 64 / 64;
    assert c == 64 * x + c % 64 && x == 64 * y + x % 64 && y == 64 * z + y % 64;
    var s := Encode(c) + rest;
    if c < 0x80 {
    } else if c < 0x800 {
      assert s[0] == 0xC0 + x && s[1] == 0x80 + c % 64;
    } else if c < 0x1_0000 {
      assert s[0] == 0xE0 + y && s[1] == 0x80 + x % 64 && s[2] == 0x80 + c % 64;
      assert SecondOfThree(s[0], s[1]);
    } else {
      assert s[0] == 0xF0 + z && s[1] == 0x80 + y % 64 && s[2] == 0x80 + x % 64 && s[3] == 0x80 + c % 64;
      assert SecondOfFour(s[0], s[1]);
    }
  }

  lemma Digit(high: int, low: int)
    requires 0 <= low < 64
    ensures (high * 64 + low) / 64 == high && (high * 64 + low) % 64 == low
  {
  }

  function TwoBytes(a: int, b: int): (c: Scalar)
    requires 0xC2 <= a <= 0xDF && 0x80 <= b <= 0xBF
    ensures Encode(c) == [a, b]
  {
    Digit(a - 0xC0, b - 0x80);
    (a - 0xC0) * 64 + (b - 0x80)
  }

  function ThreeBytes(a: int, b: int, c: int): (r: Scalar)
    requires 0 <= a < 256 && 0 <= b < 256 && SecondOfThree(a, b) && 0x80 <= c <= 0xBF
    ensures Encode(r) == [a, b, c]
  {
    var high := (a - 0xE0) * 64 + (b - 0x80);
    Digit(a - 0xE0, b - 0x80);
    Digit(high, c - 0x80);
    high * 64 + (c - 0x80)
  }

  function FourBytes(a: int, b: int, c: int, d: int): (r: Scalar)
    requires 0 <= a < 256 && 0 <= b < 256 && SecondOfFour(a, b) && 0x80 <= c <= 0xBF && 0x80 <= d <= 0xBF
    ensures Encode(r) == [a, b, c, d]
  {
    var high := (a - 0xF0) * 64 + (b - 0x80);
    var middle := high * 64 + (c - 0x80);
    Digit(a - 0xF0, b - 0x80);
    Digit(high, c - 0x80);
    Digit(middle, d - 0x80);
    middle * 64 + (d - 0x80)
  }

  /** The scalar value of the character at the front. */
  function DecodeChar(s: seq<Byte>): (c: Scalar)
    requires CharLength(s) > 0
    ensures Encode(c) == s[..CharLength(s)]
  {
    var n := CharLength(s);
    if n == 1 then s[0]
    else if n == 2 then TwoBytes(s[0], s[1])
    else if n == 3 then ThreeBytes(s[0], s[1], s[2])
    else FourBytes(s[0], s[1], s[2], s[3])
  }

  function DecodeAll(s: seq<Byte>): seq<Scalar>
    requires Valid(s)
  {
    if s == [] then [] else [DecodeChar(s)] + DecodeAll(s[CharLength(s)..])
  }

  lemma {:induction false} EncodeAllValid(text: seq<Scalar>)
    ensures Valid(EncodeAll(text))
  {
    if text != [] {
      var rest := EncodeAll(text[1..]);
      EncodeWellFormed(text[0], rest);
      EncodeAllValid(text[1..]);
      assert (Encode(text[0]) + rest)[|Encode(text[0])|..] == rest;
    }
  }

  lemma {:induction false} EncodeDecode(s: seq<Byte>)
    requires Valid(s)
    ensures EncodeAll(DecodeAll(s)) == s
  {
    if s != [] {
      EncodeDecode(s[CharLength(s)..]);
      var n := CharLength(s);
      assert DecodeAll(s) == [DecodeChar(s)] + DecodeAll(s[n..]);
      assert DecodeAll(s)[1..] == DecodeAll(s[n..]);
      assert s == s[..n] + s[n..];
    }
  }

  /** The grammar accepts exactly the encoder's images. */
  lemma ValidIffEncoded(s: seq<Byte>)
    ensures Valid(s) <==> exists text: seq<Scalar> :: EncodeAll(text) == s
  {
    if Valid(s) {
      EncodeDecode(s);
    }
    if text: seq<Scalar> :| EncodeAll(text) == s {
      EncodeAllValid(text);
    }
  }

  /** No proper part of a character is a character: the first byte fixes the length. */
  lemma CutCharacterInvalid(s: seq<Byte>, k: nat)
    requires 0 < k < CharLength(s)
    ensures CharLength(s[..k]) == 0
  {
  }

  lemma CharLengthLocal(s: seq<Byte>, k: nat)
    requires 0 < CharLength(s) <= k <= |s|
    ensures CharLength(s[..k]) == CharLength(s)
  {
  }

  /** A cut of valid text is valid exactly at a character boundary. */
  lemma {:induction false} CutValidIffBoundary(s: seq<Byte>, k: nat)
    requires Valid(s) && k <= |s|
    ensures Valid(s[..k]) <==> Boundary(s, k)
  {
    if k > 0 {
      var n := CharLength(s);
      if k < n {
        CutCharacterInvalid(s, k);
      } else {
        CharLengthLocal(s, k);
        assert s[..k][n..] == s[n..][..k - n];
        CutValidIffBoundary(s[n..], k - n);
      }
    }
  }

  /** Every position of valid text has a boundary at most three bytes before it. */
  lemma {:induction false} BoundaryNearby(s: seq<Byte>, k: nat) returns (b: nat)
    requires Valid(s) && k <= |s|
    ensures Boundary(s, b) && k - 3 <= b <= k
  {
    if k == 0 || k < CharLength(s) {
      b := 0;
    } else {
      var rest := BoundaryNearby(s[CharLength(s)..], k - CharLength(s));
      b := rest + CharLength(s);
    }
  }

  /** Boundaries are the ends of the encoded prefixes. */
  lemma {:induction false} BoundaryIsPrefixEnd(text: seq<Scalar>, n: nat)
    requires n <= |text|
    ensures EncodeAll(text[..n]) <= EncodeAll(text)
    ensures Boundary(EncodeAll(text), |EncodeAll(text[..n])|)
  {
    if n > 0 {
      BoundaryIsPrefixEnd(text[1..], n - 1);
      assert text[..n][1..] == text[1..][..n - 1];
      var first, rest := Encode(text[0]), EncodeAll(text[1..]);
      EncodeWellFormed(text[0], rest);
      assert (first + rest)[|first|..] == rest;
    }
  }
}
