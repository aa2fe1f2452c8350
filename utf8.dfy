/**
 * Strict UTF-8, as Python's `bytes.decode("utf-8")` applies it: overlong
 * forms, encoded surrogates and values above U+10FFFF are rejected.
 */
module Utf8 {
  import opened Wrappers

  newtype byte = x: int | 0 <= x < 256

  predicate IsContinuation(b: byte) {
    0x80 <= b <= 0xBF
  }

  /** The shortest encoding of one scalar value. */
  function EncodeChar(c: char): (r: seq<byte>)
    ensures 1 <= |r| <= 4
  {
    var n := c as int;
    if n < 0x80 then [n as byte]
    else if n < 0x800 then [(0xC0 + n / 64) as byte, (0x80 + n % 64) as byte]
    else if n < 0x10000 then
      [(0xE0 + n / 4096) as byte, (0x80 + (n / 64) % 64) as byte, (0x80 + n % 64) as byte]
    else
      [(0xF0 + n / 262144) as byte, (0x80 + (n / 4096) % 64) as byte,
       (0x80 + (n / 64) % 64) as byte, (0x80 + n % 64) as byte]
  }

  /** `s.encode("utf-8")`. */
  function Encode(s: string): seq<byte> {
    if s == [] then [] else EncodeChar(s[0]) + Encode(s[1..])
  }

  /**
   * The scalar value that `b` starts with and the number of bytes it takes,
   * or None when `b` does not start with a well-formed sequence.
   */
  function DecodeFirst(b: seq<byte>): (r: Option<(char, nat)>)
    requires b != []
    ensures r.Some? ==> 1 <= r.value.1 <= |b| && r.value.1 <= 4
  {
    var b0 := b[0] as int;
    if b0 < 0x80 then Some((b0 as char, 1))
    else if 0xC2 <= b0 <= 0xDF then
      if |b| >= 2 && IsContinuation(b[1]) then
        Some((((b0 - 0xC0) * 64 + (b[1] as int - 0x80)) as char, 2))
      else None
    else if 0xE0 <= b0 <= 0xEF then
      var lo := if b0 == 0xE0 then 0xA0 else 0x80;
      var hi := if b0 == 0xED then 0x9F else 0xBF;
      if |b| >= 3 && lo <= b[1] as int <= hi && IsContinuation(b[2]) then
        Some((((b0 - 0xE0) * 4096 + (b[1] as int - 0x80) * 64 + (b[2] as int - 0x80)) as char, 3))
      else None
    else if 0xF0 <= b0 <= 0xF4 then
      var lo := if b0 == 0xF0 then 0x90 else 0x80;
      var hi := if b0 == 0xF4 then 0x8F else 0xBF;
      if |b| >= 4 && lo <= b[1] as int <= hi && IsContinuation(b[2]) && IsContinuation(b[3]) then
        Some((((b0 - 0xF0) * 262144 + (b[1] as int - 0x80) * 4096
               + (b[2] as int - 0x80) * 64 + (b[3] as int - 0x80)) as char, 4))
      else None
    else None
  }

  /** `b.decode("utf-8")`, with None where Python raises `UnicodeDecodeError`. */
  function Decode(b: seq<byte>): Option<string>
    decreases |b|
  {
    if b == [] then Some([])
    else match DecodeFirst(b)
      case None => None
      case Some((c, n)) =>
        match Decode(b[n..])
        case None => None
        case Some(rest) => Some([c] + rest)
  }

  lemma DecodeFirstOfEncodeChar(c: char, rest: seq<byte>)
    ensures DecodeFirst(EncodeChar(c) + rest) == Some((c, |EncodeChar(c)|))
  {
    var n := c as int;
    if n < 0x80 {
    } else if n < 0x800 {
      DecodeTwo(c, rest);
    } else if n < 0x10000 {
      DecodeThree(c, rest);
    } else {
      DecodeFour(c, rest);
    }
  }

  lemma DecodeTwo(c: char, rest: seq<byte>)
    requires 0x80 <= c as int < 0x800
    ensures DecodeFirst(EncodeChar(c) + rest) == Some((c, 2))
  {
    var n := c as int;
    var q, r := n / 64, n % 64;
    assert n == q * 64 + r && 0 <= r < 64;
    var b := EncodeChar(c) + rest;
    assert b[0] as int == 0xC0 + q && b[1] as int == 0x80 + r;
  }

  lemma DecodeThree(c: char, rest: seq<byte>)
    requires 0x800 <= c as int < 0x10000
    ensures DecodeFirst(EncodeChar(c) + rest) == Some((c, 3))
  {
    var n := c as int;
    var q, m := n / 4096, n % 4096;
    var q2, r := m / 64, m % 64;
    assert n == q * 4096 + m && 0 <= m < 4096;
    assert m == q2 * 64 + r && 0 <= r < 64;
    assert (n / 64) % 64 == q2 && n % 64 == r by {
      assert n == (q * 64 + q2) * 64 + r;
    }
    var b := EncodeChar(c) + rest;
    assert b[0] as int == 0xE0 + q && b[1] as int == 0x80 + q2 && b[2] as int == 0x80 + r;
  }

  lemma DecodeFour(c: char, rest: seq<byte>)
    requires 0x10000 <= c as int
    ensures DecodeFirst(EncodeChar(c) + rest) == Some((c, 4))
  {
    var n := c as int;
    var q, q2, q3, r := SplitFour(n);
    var b := EncodeChar(c) + rest;
    assert b[0] as int == 0xF0 + q && b[1] as int == 0x80 + q2;
    assert b[2] as int == 0x80 + q3 && b[3] as int == 0x80 + r;
    assert q == 0 ==> q2 >= 0x10;
    assert q == 4 ==> q2 < 0x10;
  }

  /** The four base-64 digits of a supplementary scalar value, as `EncodeChar` computes them. */
  lemma SplitFour(n: int) returns (q: int, q2: int, q3: int, r: int)
    requires 0x10000 <= n < 0x11_0000
    ensures q == n / 262144 && q2 == (n / 4096) % 64 && q3 == (n / 64) % 64 && r == n % 64
    ensures 0 <= q <= 4 && 0 <= q2 < 64 && 0 <= q3 < 64 && 0 <= r < 64
    ensures n == q * 262144 + q2 * 4096 + q3 * 64 + r
    ensures q == 0 ==> q2 >= 0x10
    ensures q == 4 ==> q2 < 0x10
  {
    q := n / 262144;
    var m := n % 262144;
    q2 := m / 4096;
    var m2 := m % 4096;
    q3 := m2 / 64;
    r := m2 % 64;
    assert n == q * 262144 + m && 0 <= m < 262144;
    assert m == q2 * 4096 + m2 && 0 <= m2 < 4096;
    assert m2 == q3 * 64 + r && 0 <= r < 64;
    assert (n / 4096) % 64 == q2 by {
      assert n == (q * 64 + q2) * 4096 + m2;
    }
    assert (n / 64) % 64 == q3 && n % 64 == r by {
      assert n == ((q * 64 + q2) * 64 + q3) * 64 + r;
    }
  }

  /** Decoding undoes encoding: `s.encode("utf-8").decode("utf-8") == s`. */
  lemma {:induction false} DecodeEncode(s: string)
    ensures Decode(Encode(s)) == Some(s)
  {
    if s != [] {
      var e := EncodeChar(s[0]);
      DecodeFirstOfEncodeChar(s[0], Encode(s[1..]));
      assert (e + Encode(s[1..]))[|e|..] == Encode(s[1..]);
      DecodeEncode(s[1..]);
      assert s == [s[0]] + s[1..];
    }
  }
  /** The bytes a well-formed sequence was decoded from are the encoding of the scalar value it yields. */
  lemma EncodeCharOfDecodeFirst(b: seq<byte>)
    requires b != [] && DecodeFirst(b).Some?
    ensures EncodeChar(DecodeFirst(b).value.0) == b[..DecodeFirst(b).value.1]
  {
    var b0 := b[0] as int;
    if b0 < 0x80 {
    } else if b0 <= 0xDF {
      EncodeOfTwo(b);
    } else if b0 <= 0xEF {
      EncodeOfThree(b);
    } else {
      EncodeOfFour(b);
    }
  }

  lemma EncodeOfTwo(b: seq<byte>)
    requires |b| >= 2 && 0xC2 <= b[0] <= 0xDF && IsContinuation(b[1])
    ensures DecodeFirst(b).Some? && EncodeChar(DecodeFirst(b).value.0) == b[..2]
  {
    var c := DecodeFirst(b).value.0;
    var n := c as int;
    var q, r := b[0] as int - 0xC0, b[1] as int - 0x80;
    assert n == q * 64 + r && 0 <= r < 64;
    assert n / 64 == q && n % 64 == r;
  }

  lemma EncodeOfThree(b: seq<byte>)
    requires b != [] && 0xE0 <= b[0] <= 0xEF && DecodeFirst(b).Some?
    ensures EncodeChar(DecodeFirst(b).value.0) == b[..3]
  {
    var c := DecodeFirst(b).value.0;
    var n := c as int;
    var q, q2, r := b[0] as int - 0xE0, b[1] as int - 0x80, b[2] as int - 0x80;
    assert 0 <= q2 < 64 && 0 <= r < 64;
    assert n == (q * 64 + q2) * 64 + r;
    assert n / 64 == q * 64 + q2 && n % 64 == r;
    assert n / 4096 == q && (n / 64) % 64 == q2 by {
      assert n == q * 4096 + (q2 * 64 + r);
    }
    assert 0x800 <= n < 0x10000;
    var e := EncodeChar(c);
    assert e[0] == b[0] && e[1] == b[1] && e[2] == b[2];
  }

  lemma EncodeOfFour(b: seq<byte>)
    requires b != [] && 0xF0 <= b[0] <= 0xF4 && DecodeFirst(b).Some?
    ensures EncodeChar(DecodeFirst(b).value.0) == b[..4]
  {
    var c := DecodeFirst(b).value.0;
    var n := c as int;
    var q, q2, q3, r := b[0] as int - 0xF0, b[1] as int - 0x80, b[2] as int - 0x80, b[3] as int - 0x80;
    assert 0 <= q2 < 64 && 0 <= q3 < 64 && 0 <= r < 64;
    var m2 := q3 * 64 + r;
    var m := q2 * 4096 + m2;
    assert n == q * 262144 + m && 0 <= m2 < 4096 && 0 <= m < 262144;
    assert n / 262144 == q;
    assert n / 4096 == q * 64 + q2 && (n / 4096) % 64 == q2 by {
      assert n == (q * 64 + q2) * 4096 + m2;
    }
    assert n / 64 == (q * 64 + q2) * 64 + q3 && n % 64 == r by {
      assert n == ((q * 64 + q2) * 64 + q3) * 64 + r;
    }
    assert (n / 64) % 64 == q3;
    assert 0x10000 <= n;
    var e := EncodeChar(c);
    assert e[0] == b[0] && e[1] == b[1] && e[2] == b[2] && e[3] == b[3];
  }

  /** Encoding undoes a successful decoding: a string decoded from `b` encodes back to `b`. */
  lemma {:induction false} EncodeDecode(b: seq<byte>)
    requires Decode(b).Some?
    ensures Encode(Decode(b).value) == b
    decreases |b|
  {
    if b != [] {
      var (c, n) := DecodeFirst(b).value;
      var t := Decode(b[n..]).value;
      assert Decode(b).value == [c] + t;
      EncodeCharOfDecodeFirst(b);
      EncodeDecode(b[n..]);
      EncodeCons(c, t);
      assert b == b[..n] + b[n..];
    }
  }

  lemma EncodeCons(c: char, t: string)
    ensures Encode([c] + t) == EncodeChar(c) + Encode(t)
  {
    assert ([c] + t)[1..] == t;
  }
}
