/** UTF-8, as the names in the directory of a disk image are decoded: what counts as text, and that this
    is exactly what characters are encoded to. */
module Utf8 {
  type Byte = x: int | 0 <= x < 256

  predicate Tail(b: Byte) { 0x80 <= b < 0xC0 }

  /** The length of the character that the bytes begin with (section 4 of RFC 3629), or 0 if there is none */
  function Character(s: seq<Byte>): (n: nat)
    requires s != []
    ensures n <= |s|
  {
    if s[0] < 0x80 then 1
    else if 0xC2 <= s[0] < 0xE0 then if |s| > 1 && Tail(s[1]) then 2 else 0
    else if 0xE0 <= s[0] < 0xF0 then
      if |s| > 2 && Tail(s[1]) && Tail(s[2]) && (s[0] == 0xE0 ==> s[1] >= 0xA0) && (s[0] == 0xED ==> s[1] < 0xA0) then 3 else 0
    else if 0xF0 <= s[0] < 0xF5 then
      if |s| > 3 && Tail(s[1]) && Tail(s[2]) && Tail(s[3]) && (s[0] == 0xF0 ==> s[1] >= 0x90) && (s[0] == 0xF4 ==> s[1] < 0x90) then 4 else 0
    else 0
  }

  /** The bytes can be decoded. */
  predicate Text(s: seq<Byte>) { s == [] || (Character(s) > 0 && Text(s[Character(s)..])) }

  /** The characters there are: all numbers up to 0x10ffff but the surrogates */
  type Scalar = c: int | 0 <= c < 0xD800 || 0xE000 <= c < 0x110000

  /** How a character is encoded (section 3 of RFC 3629) */
  function Code(c: Scalar): (s: seq<Byte>)
    ensures s != []
  {
    if c < 0x80 then [c]
    else if c < 0x800 then [0xC0 + c / 64, 0x80 + c % 64]
    else if c < 0x1_0000 then [0xE0 + c / 64 / 64, 0x80 + c / 64 % 64, 0x80 + c % 64]
    else [0xF0 + c / 64 / 64 / 64, 0x80 + c / 64 / 64 % 64, 0x80 + c / 64 % 64, 0x80 + c % 64]
  }

  function Encoded(cs: seq<Scalar>): seq<Byte> { if cs == [] then [] else Code(cs[0]) + Encoded(cs[1..]) }

  lemma CodeLength(c: Scalar, rest: seq<Byte>)
    ensures Character(Code(c) + rest) == |Code(c)|
  {
    var s := Code(c) + rest;
    assert forall i :: 0 <= i < |Code(c)| ==> s[i] == Code(c)[i];
  }

  /** A number with six more bits */
  function Six(high: int, b: Byte): (c: int)
    requires Tail(b)
    ensures c / 64 == high && 0x80 + c % 64 == b
  {
    high * 64 + (b as int - 0x80)
  }

  lemma CodeOf(s: seq<Byte>) returns (c: Scalar)
    requires s != [] && Character(s) > 0
    ensures Code(c) == s[..Character(s)]
  {
    var n := Character(s);
    if n == 1 { return s[0]; }
    var high := if n == 2 then s[0] as int - 0xC0 else if n == 3 then s[0] as int - 0xE0 else s[0] as int - 0xF0;
    var d := Six(high, s[1]);
    if n == 2 { return d; }
    var e := Six(d, s[2]);
    if n == 3 { return e; }
    return Six(e, s[3]);
  }

  lemma {:induction false} EncodedIsText(cs: seq<Scalar>)
    ensures Text(Encoded(cs))
  {
    if cs != [] {
      EncodedIsText(cs[1..]);
      CodeLength(cs[0], Encoded(cs[1..]));
      assert Encoded(cs)[|Code(cs[0])|..] == Encoded(cs[1..]);
    }
  }

  lemma {:induction false} TextIsEncoded(s: seq<Byte>) returns (cs: seq<Scalar>)
    requires Text(s)
    ensures Encoded(cs) == s
  {
    if s == [] { return []; }
    var c := CodeOf(s);
    var rest := TextIsEncoded(s[Character(s)..]);
    cs := [c] + rest;
    assert cs[1..] == rest && s == s[..Character(s)] + s[Character(s)..];
  }

  /** What decodes is what some characters are encoded to, and nothing else. */
  lemma TextExactly(s: seq<Byte>)
    ensures Text(s) <==> exists cs :: Encoded(cs) == s
  {
    if Text(s) {
      var cs := TextIsEncoded(s);
      assert Encoded(cs) == s;
    }
    if cs :| Encoded(cs) == s {
      EncodedIsText(cs);
    }
  }
}
