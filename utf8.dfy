/**
  UTF-8 as Rust's `std::str::from_utf8` checks it: the well-formed byte
  sequences of the Unicode Standard, Table 3-7 (no overlong forms, no
  surrogates, nothing above U+10FFFF). `Encode` is how a Rust `&str`
  argument becomes bytes; `Decode` is `from_utf8`.
*/
module Utf8 {
  import opened Prelude

  type byte = b: int | 0 <= b < 256

  predicate InRange(b: byte, lo: int, hi: int) { lo <= b <= hi }

  /** The smallest and largest second byte allowed after the lead byte `b0` of a 3-byte form. */
  function Second3Lo(b0: int): int { if b0 == 0xE0 then 0xA0 else 0x80 }
  function Second3Hi(b0: int): int { if b0 == 0xED then 0x9F else 0xBF }
  /** The same for a 4-byte form. */
  function Second4Lo(b0: int): int { if b0 == 0xF0 then 0x90 else 0x80 }
  function Second4Hi(b0: int): int { if b0 == 0xF4 then 0x8F else 0xBF }

  /**
    The scalar value encoded at the front of `s` and the number of bytes it
    takes, or `None` when `s` does not start with a well-formed sequence.
  */
  function DecodeScalar(s: seq<byte>): (r: Option<(char, nat)>)
    ensures r.Some? ==> 1 <= r.value.1 <= 4 && r.value.1 <= |s|
  {
    if |s| == 0 then None
    else
      var b0 := s[0] as int;
      if b0 < 0x80 then
        Some((b0 as char, 1))
      else if 0xC2 <= b0 <= 0xDF then
        if 2 <= |s| && InRange(s[1], 0x80, 0xBF) then
          Some((((b0 - 0xC0) * 64 + (s[1] as int - 0x80)) as char, 2))
        else None
      else if 0xE0 <= b0 <= 0xEF then
        if 3 <= |s| && InRange(s[1], Second3Lo(b0), Second3Hi(b0)) && InRange(s[2], 0x80, 0xBF) then
          var cp := (b0 - 0xE0) * 4096 + (s[1] as int - 0x80) * 64 + (s[2] as int - 0x80);
          assert b0 == 0xED ==> cp <= 0xD7FF;
          assert 0xEE <= b0 ==> 0xE000 <= cp;
          assert b0 < 0xED ==> cp < 0xD000;
          Some((cp as char, 3))
        else None
      else if 0xF0 <= b0 <= 0xF4 then
        if 4 <= |s| && InRange(s[1], Second4Lo(b0), Second4Hi(b0))
           && InRange(s[2], 0x80, 0xBF) && InRange(s[3], 0x80, 0xBF) then
          var cp := (b0 - 0xF0) * 0x40000 + (s[1] as int - 0x80) * 4096 + (s[2] as int - 0x80) * 64 + (s[3] as int - 0x80);
          assert b0 == 0xF4 ==> cp <= 0x10FFFF;
          assert b0 < 0xF4 ==> cp < 0x100000;
          Some((cp as char, 4))
        else None
      else None
  }

  /** `from_utf8`: the text `s` encodes, or `None` when `s` is not well-formed UTF-8. */
  function Decode(s: seq<byte>): (r: Option<string>)
    ensures r.Some? ==> |r.value| <= |s| <= 4 * |r.value|
    decreases |s|
  {
    if |s| == 0 then Some([])
    else
      match DecodeScalar(s)
      case None => None
      case Some((c, n)) =>
        match Decode(s[n..])
        case None => None
        case Some(t) => Some([c] + t)
  }

  predicate Valid(s: seq<byte>) { Decode(s).Some? }

  /** The UTF-8 form of one scalar value: its bits cut into 6-bit groups below a lead byte. */
  function EncodeScalar(c: char): (r: seq<byte>)
    ensures 1 <= |r| <= 4
  {
    var cp := c as int;
    var q1, r0 := cp / 64, cp % 64;
    var q2, r1 := q1 / 64, q1 % 64;
    var q3, r2 := q2 / 64, q2 % 64;
    if cp < 0x80 then [cp]
    else if cp < 0x800 then [0xC0 + q1, 0x80 + r0]
    else if cp < 0x10000 then [0xE0 + q2, 0x80 + r1, 0x80 + r0]
    else [0xF0 + q3, 0x80 + r2, 0x80 + r1, 0x80 + r0]
  }

  /** The UTF-8 form of a text: the bytes a Rust `&str` holds. */
  function Encode(s: string): (r: seq<byte>)
    ensures |s| <= |r| <= 4 * |s|
  {
    if s == [] then [] else EncodeScalar(s[0]) + Encode(s[1..])
  }

  /** Division by 64 has exactly one quotient and 6-bit remainder. */
  lemma Split64(n: int, q: int, r: int)
    requires n == 64 * q + r && 0 <= r < 64
    ensures n / 64 == q && n % 64 == r
  {
  }

  /** The decoder reads back the scalar value at the front of its encoding, and consumes exactly that encoding. */
  lemma DecodeScalarOfEncoded(c: char, rest: seq<byte>)
    ensures DecodeScalar(EncodeScalar(c) + rest) == Some((c, |EncodeScalar(c)|))
  {
    var cp := c as int;
    var e := EncodeScalar(c);
    var s := e + rest;
    var q1, r0 := cp / 64, cp % 64;
    var q2, r1 := q1 / 64, q1 % 64;
    var q3, r2 := q2 / 64, q2 % 64;
    assert cp == 64 * q1 + r0 && q1 == 64 * q2 + r1 && q2 == 64 * q3 + r2;
    if cp < 0x80 {
      assert s[0] == cp;
    } else if cp < 0x800 {
      assert s[0] == 0xC0 + q1 && s[1] == 0x80 + r0;
      assert 2 <= q1 < 32;
    } else if cp < 0x10000 {
      assert s[0] == 0xE0 + q2 && s[1] == 0x80 + r1 && s[2] == 0x80 + r0;
      assert q2 < 16 && cp == 4096 * q2 + 64 * r1 + r0;
      assert q2 == 0 ==> r1 >= 32;
      assert q2 == 0xD ==> r1 < 32;
    } else {
      assert s[0] == 0xF0 + q3 && s[1] == 0x80 + r2 && s[2] == 0x80 + r1 && s[3] == 0x80 + r0;
      assert cp == 0x40000 * q3 + 4096 * r2 + 64 * r1 + r0;
      assert q3 <= 4;
      assert q3 == 0 ==> r2 >= 16;
      assert q3 == 4 ==> r2 < 16;
    }
  }

  /** A well-formed sequence at the front of `s` is the encoding of the scalar value it decodes to. */
  lemma EncodeOfDecodedScalar(s: seq<byte>)
    requires DecodeScalar(s).Some?
    ensures EncodeScalar(DecodeScalar(s).value.0) == s[..DecodeScalar(s).value.1]
  {
    var (c, n) := DecodeScalar(s).value;
    var cp := c as int;
    var b0 := s[0] as int;
    if b0 < 0x80 {
    } else if b0 <= 0xDF {
      var x1 := s[1] as int - 0x80;
      assert cp == 64 * (b0 - 0xC0) + x1;
      Split64(cp, b0 - 0xC0, x1);
      assert EncodeScalar(c) == [s[0], s[1]];
    } else if b0 <= 0xEF {
      var x1, x2 := s[1] as int - 0x80, s[2] as int - 0x80;
      var q1 := 64 * (b0 - 0xE0) + x1;
      assert cp == 64 * q1 + x2;
      Split64(cp, q1, x2);
      Split64(q1, b0 - 0xE0, x1);
      assert EncodeScalar(c) == [s[0], s[1], s[2]];
    } else {
      var x1, x2, x3 := s[1] as int - 0x80, s[2] as int - 0x80, s[3] as int - 0x80;
      var q2 := 64 * (b0 - 0xF0) + x1;
      var q1 := 64 * q2 + x2;
      assert cp == 64 * q1 + x3;
      Split64(cp, q1, x3);
      Split64(q1, q2, x2);
      Split64(q2, b0 - 0xF0, x1);
      assert EncodeScalar(c) == [s[0], s[1], s[2], s[3]];
    }
  }

  /** Decoding undoes encoding: every text's UTF-8 form is valid and decodes back to it. */
  lemma {:induction false} DecodeEncode(s: string)
    ensures Decode(Encode(s)) == Some(s)
  {
    if s != [] {
      var e := EncodeScalar(s[0]);
      DecodeScalarOfEncoded(s[0], Encode(s[1..]));
      assert (e + Encode(s[1..]))[|e|..] == Encode(s[1..]);
      DecodeEncode(s[1..]);
      assert [s[0]] + s[1..] == s;
    }
  }

  /** Encoding undoes decoding: a valid byte string is the UTF-8 form of the text it decodes to. */
  lemma {:induction false} EncodeDecode(b: seq<byte>)
    requires Decode(b).Some?
    ensures Encode(Decode(b).value) == b
    decreases |b|
  {
    if |b| != 0 {
      var (c, n) := DecodeScalar(b).value;
      var t := Decode(b[n..]).value;
      assert Decode(b).value == [c] + t;
      EncodeOfDecodedScalar(b);
      EncodeDecode(b[n..]);
      var u := [c] + t;
      assert u[0] == c && u[1..] == t;
      assert EncodeScalar(c) == b[..n] && Encode(t) == b[n..];
      assert Encode(u) == b[..n] + b[n..];
      assert b[..n] + b[n..] == b;
    }
  }

  /** A byte string is valid exactly when it is the UTF-8 form of some text. */
  lemma ValidIffEncoded(b: seq<byte>)
    ensures Valid(b) <==> exists s :: Encode(s) == b
  {
    if Valid(b) {
      EncodeDecode(b);
    }
    if exists s :: Encode(s) == b {
      var s :| Encode(s) == b;
      DecodeEncode(s);
    }
  }

  /** A continuation byte (0x9F) with no lead byte before it is rejected: `[0, 159, 146, 150]` is not UTF-8. */
  lemma StrayContinuationRejected()
    ensures Decode([0, 159, 146, 150]) == None
  {
    assert DecodeScalar([0, 159, 146, 150]) == Some((0 as char, 1));
    assert [0, 159, 146, 150][1..] == [159, 146, 150];
    assert DecodeScalar([159, 146, 150]) == None;
  }
}
