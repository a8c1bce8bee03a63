/** `std::str::from_utf8`: the bytes of a QR payload are text only when they
    are well-formed UTF-8 as section 4 of RFC 3629 defines it (shortest form
    only, no surrogate halves, nothing above U+10FFFF). */
module Utf8 {
  import opened Wrappers

  newtype byte = x: int | 0 <= x < 256

  predicate InRange(b: byte, lo: int, hi: int) {
    lo <= b as int <= hi
  }

  /** A continuation byte, 10xxxxxx. */
  predicate IsTail(b: byte) {
    InRange(b, 0x80, 0xBF)
  }

  /** The low six bits a continuation byte carries. */
  function Tail(b: byte): int {
    b as int - 0x80
  }

  /** The range RFC 3629 allows for the second byte of a three-byte sequence:
      E0 needs A0-BF (no overlong form), ED needs 80-9F (no surrogate). */
  predicate Second3(b0: byte, b1: byte) {
    if b0 == 0xE0 then InRange(b1, 0xA0, 0xBF)
    else if b0 == 0xED then InRange(b1, 0x80, 0x9F)
    else IsTail(b1)
  }

  /** The range RFC 3629 allows for the second byte of a four-byte sequence:
      F0 needs 90-BF (no overlong form), F4 needs 80-8F (at most U+10FFFF). */
  predicate Second4(b0: byte, b1: byte) {
    if b0 == 0xF0 then InRange(b1, 0x90, 0xBF)
    else if b0 == 0xF4 then InRange(b1, 0x80, 0x8F)
    else IsTail(b1)
  }

  function Char2(b0: byte, b1: byte): (c: char)
    requires InRange(b0, 0xC2, 0xDF) && IsTail(b1)
    ensures 0x80 <= c as int < 0x800
  {
    ((b0 as int - 0xC0) * 64 + Tail(b1)) as char
  }

  function Char3(b0: byte, b1: byte, b2: byte): (c: char)
    requires InRange(b0, 0xE0, 0xEF) && Second3(b0, b1) && IsTail(b2)
    ensures 0x800 <= c as int < 0x10000
  {
    ((b0 as int - 0xE0) * 4096 + Tail(b1) * 64 + Tail(b2)) as char
  }

  function Char4(b0: byte, b1: byte, b2: byte, b3: byte): (c: char)
    requires InRange(b0, 0xF0, 0xF4) && Second4(b0, b1) && IsTail(b2) && IsTail(b3)
    ensures 0x10000 <= c as int < 0x110000
  {
    ((b0 as int - 0xF0) * 262144 + Tail(b1) * 4096 + Tail(b2) * 64 + Tail(b3)) as char
  }

  /** The character a byte string starts with and how many bytes encode it,
      or None when the string does not start with a well-formed sequence. */
  function DecodeFirst(b: seq<byte>): (r: Option<(char, nat)>)
    ensures r.Some? ==> 1 <= r.value.1 <= |b| && r.value.1 <= 4
  {
    if |b| == 0 then None
    else if b[0] < 0x80 then Some((b[0] as int as char, 1))
    else if |b| >= 2 && InRange(b[0], 0xC2, 0xDF) && IsTail(b[1]) then
      Some((Char2(b[0], b[1]), 2))
    else if |b| >= 3 && InRange(b[0], 0xE0, 0xEF) && Second3(b[0], b[1]) && IsTail(b[2]) then
      Some((Char3(b[0], b[1], b[2]), 3))
    else if |b| >= 4 && InRange(b[0], 0xF0, 0xF4) && Second4(b[0], b[1]) && IsTail(b[2]) && IsTail(b[3]) then
      Some((Char4(b[0], b[1], b[2], b[3]), 4))
    else None
  }

  /** The whole byte string as text, or None when it is not valid UTF-8. */
  function Decode(b: seq<byte>): Option<string>
    decreases |b|
  {
    if b == [] then Some("")
    else
      match DecodeFirst(b)
      case None => None
      case Some((c, n)) =>
        match Decode(b[n..])
        case None => None
        case Some(s) => Some([c] + s)
  }

  /** The shortest-form encoding of one character. */
  function EncodeChar(c: char): (e: seq<byte>)
    ensures 1 <= |e| <= 4
  {
    var x := c as int;
    if x < 0x80 then [x as byte]
    else if x < 0x800 then [(0xC0 + x / 64) as byte, (0x80 + x % 64) as byte]
    else if x < 0x10000 then
      [(0xE0 + x / 4096) as byte, (0x80 + x / 64 % 64) as byte, (0x80 + x % 64) as byte]
    else
      [(0xF0 + x / 262144) as byte, (0x80 + x / 4096 % 64) as byte,
       (0x80 + x / 64 % 64) as byte, (0x80 + x % 64) as byte]
  }

  function Encode(s: string): seq<byte> {
    if s == [] then [] else EncodeChar(s[0]) + Encode(s[1..])
  }

  lemma Quotients2(x: int)
    requires 0x80 <= x < 0x800
    ensures 0xC2 <= 0xC0 + x / 64 <= 0xDF && 0 <= x % 64 < 64
    ensures (x / 64) * 64 + x % 64 == x
  {}

  lemma Digits2(a: int, t: int)
    requires 0 <= a && 0 <= t < 64
    ensures (a * 64 + t) / 64 == a && (a * 64 + t) % 64 == t
  {}

  lemma Quotients3(x: int)
    requires 0x800 <= x < 0x10000
    ensures 0 <= x / 4096 <= 15 && 0 <= x / 64 % 64 < 64 && 0 <= x % 64 < 64
    ensures (x / 4096) * 4096 + (x / 64 % 64) * 64 + x % 64 == x
  {}

  lemma Digits3(a: int, t1: int, t2: int)
    requires 0 <= a <= 15 && 0 <= t1 < 64 && 0 <= t2 < 64
    ensures var x := a * 4096 + t1 * 64 + t2;
      x / 4096 == a && x / 64 % 64 == t1 && x % 64 == t2
  {}

  lemma Quotients4(x: int)
    requires 0x10000 <= x < 0x110000
    ensures 0 <= x / 262144 <= 4 && 0 <= x / 4096 % 64 < 64 && 0 <= x / 64 % 64 < 64 && 0 <= x % 64 < 64
    ensures (x / 262144) * 262144 + (x / 4096 % 64) * 4096 + (x / 64 % 64) * 64 + x % 64 == x
  {}

  lemma Digits4(a: int, t1: int, t2: int, t3: int)
    requires 0 <= a <= 4 && 0 <= t1 < 64 && 0 <= t2 < 64 && 0 <= t3 < 64
    ensures var x := a * 262144 + t1 * 4096 + t2 * 64 + t3;
      x / 262144 == a && x / 4096 % 64 == t1 && x / 64 % 64 == t2 && x % 64 == t3
  {
    var y, z := a * 64 + t1, t2 * 64 + t3;
    var x := a * 262144 + t1 * 4096 + t2 * 64 + t3;
    assert x == y * 4096 + z && 0 <= z < 4096;
    assert x / 4096 == y;
    assert y % 64 == t1 && y / 64 == a;
    assert x / 64 == y * 64 + t2;
  }

  /** Decoding the encoding of a character, whatever follows it, gives back
      that character and the encoding's length. */
  lemma DecodeFirstOfEncoding(c: char, rest: seq<byte>)
    ensures DecodeFirst(EncodeChar(c) + rest) == Some((c, |EncodeChar(c)|))
  {
    var x := c as int;
    var b := EncodeChar(c) + rest;
    if x < 0x80 {
    } else if x < 0x800 {
      Quotients2(x);
      assert Char2(b[0], b[1]) == c;
    } else if x < 0x10000 {
      Quotients3(x);
      assert Char3(b[0], b[1], b[2]) == c;
    } else {
      Quotients4(x);
      assert Char4(b[0], b[1], b[2], b[3]) == c;
    }
  }

  lemma EncodeChar2(b0: byte, b1: byte)
    requires InRange(b0, 0xC2, 0xDF) && IsTail(b1)
    ensures EncodeChar(Char2(b0, b1)) == [b0, b1]
  {
    Digits2(b0 as int - 0xC0, Tail(b1));
  }

  lemma EncodeChar3(b0: byte, b1: byte, b2: byte)
    requires InRange(b0, 0xE0, 0xEF) && Second3(b0, b1) && IsTail(b2)
    ensures EncodeChar(Char3(b0, b1, b2)) == [b0, b1, b2]
  {
    Digits3(b0 as int - 0xE0, Tail(b1), Tail(b2));
  }

  lemma EncodeChar4(b0: byte, b1: byte, b2: byte, b3: byte)
    requires InRange(b0, 0xF0, 0xF4) && Second4(b0, b1) && IsTail(b2) && IsTail(b3)
    ensures EncodeChar(Char4(b0, b1, b2, b3)) == [b0, b1, b2, b3]
  {
    Digits4(b0 as int - 0xF0, Tail(b1), Tail(b2), Tail(b3));
  }

  /** The bytes a decoded character took are its shortest-form encoding. */
  lemma DecodedFirstIsEncoding(b: seq<byte>)
    requires DecodeFirst(b).Some?
    ensures b[..DecodeFirst(b).value.1] == EncodeChar(DecodeFirst(b).value.0)
  {
    var n := DecodeFirst(b).value.1;
    if n == 2 {
      EncodeChar2(b[0], b[1]);
      assert b[..2] == [b[0], b[1]];
    } else if n == 3 {
      EncodeChar3(b[0], b[1], b[2]);
      assert b[..3] == [b[0], b[1], b[2]];
    } else if n == 4 {
      EncodeChar4(b[0], b[1], b[2], b[3]);
      assert b[..4] == [b[0], b[1], b[2], b[3]];
    }
  }

  /** Every string round-trips through its UTF-8 encoding. */
  lemma {:induction false} DecodeEncode(s: string)
    ensures Decode(Encode(s)) == Some(s)
  {
    if s != [] {
      var e := EncodeChar(s[0]);
      DecodeFirstOfEncoding(s[0], Encode(s[1..]));
      assert (e + Encode(s[1..]))[|e|..] == Encode(s[1..]);
      DecodeEncode(s[1..]);
      assert [s[0]] + s[1..] == s;
    }
  }

  /** Valid UTF-8 is the encoding of the text it decodes to: nothing is
      dropped or normalised. */
  lemma {:induction false} EncodeDecode(b: seq<byte>)
    requires Decode(b).Some?
    ensures Encode(Decode(b).value) == b
    decreases |b|
  {
    if b != [] {
      DecodeStep(b);
      var c, n := DecodeFirst(b).value.0, DecodeFirst(b).value.1;
      var t := Decode(b[n..]).value;
      DecodedFirstIsEncoding(b);
      EncodeDecode(b[n..]);
      EncodeCons(c, t);
      Rejoin(b, n);
    }
  }

  /** One step of `Decode` on a non-empty input it accepts. */
  lemma DecodeStep(b: seq<byte>)
    requires b != [] && Decode(b).Some?
    ensures DecodeFirst(b).Some? && Decode(b[DecodeFirst(b).value.1..]).Some?
    ensures Decode(b).value == [DecodeFirst(b).value.0] + Decode(b[DecodeFirst(b).value.1..]).value
  {}

  /** Encoding a text is encoding its first character, then the rest. */
  lemma EncodeCons(c: char, t: string)
    ensures Encode([c] + t) == EncodeChar(c) + Encode(t)
  {
    assert ([c] + t)[0] == c && ([c] + t)[1..] == t;
  }

  /** A sequence is its prefix followed by the rest. */
  lemma Rejoin(b: seq<byte>, n: nat)
    requires n <= |b|
    ensures b[..n] + b[n..] == b
  {}
}
