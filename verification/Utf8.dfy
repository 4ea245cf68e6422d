/** UTF-8 (section 3 of RFC 3629): the bytes Go writes for a string, and a strict reader. */
module Utf8 {
  import opened Wrappers
  import opened Base64

  function Continuation(n: nat): (b: byte)
    ensures 0x80 <= b < 0xc0 && b - 0x80 == n % 64
  {
    0x80 + n % 64
  }

  function EncodeChar(c: char): (b: Bytes)
    ensures 1 <= |b| <= 4
  {
    var n := c as int;
    if n < 0x80 then [n]
    else if n < 0x800 then [0xc0 + n / 0x40, Continuation(n)]
    else if n < 0x10000 then [0xe0 + n / 0x1000, Continuation(n / 0x40), Continuation(n)]
    else [0xf0 + n / 0x40000, Continuation(n / 0x1000), Continuation(n / 0x40), Continuation(n)]
  }

  function EncodeText(s: string): Bytes {
    if s == "" then [] else EncodeChar(s[0]) + EncodeText(s[1..])
  }

  predicate IsContinuation(b: byte) { 0x80 <= b < 0xc0 }

  predicate IsScalar(n: int) { 0 <= n < 0xd800 || 0xe000 <= n < 0x110000 }

  /** The character at the start of b and its width. Overlong forms and surrogates are refused. */
  function DecodeChar(b: Bytes): (r: Option<(char, nat)>)
    ensures r.Some? ==> 1 <= r.value.1 <= |b|
  {
    if b == [] then None
    else if b[0] < 0x80 then Some((b[0] as char, 1))
    else if 0xc2 <= b[0] < 0xe0 && |b| >= 2 && IsContinuation(b[1]) then
      Some((((b[0] as int - 0xc0) * 0x40 + (b[1] as int - 0x80)) as char, 2))
    else if 0xe0 <= b[0] < 0xf0 && |b| >= 3 && IsContinuation(b[1]) && IsContinuation(b[2]) then
      var n := (b[0] as int - 0xe0) * 0x1000 + (b[1] as int - 0x80) * 0x40 + (b[2] as int - 0x80);
      if n >= 0x800 && IsScalar(n) then Some((n as char, 3)) else None
    else if 0xf0 <= b[0] && |b| >= 4 && IsContinuation(b[1]) && IsContinuation(b[2]) && IsContinuation(b[3]) then
      var n := (b[0] as int - 0xf0) * 0x40000 + (b[1] as int - 0x80) * 0x1000 + (b[2] as int - 0x80) * 0x40 + (b[3] as int - 0x80);
      if n >= 0x10000 && IsScalar(n) then Some((n as char, 4)) else None
    else None
  }

  function DecodeText(b: Bytes): Option<string> {
    if b == [] then Some("")
    else
      var (c, n) :- DecodeChar(b);
      var rest :- DecodeText(b[n..]);
      Some([c] + rest)
  }

  lemma DecodeShortChar(c: char, k: Bytes)
    requires c as int < 0x800
    ensures DecodeChar(EncodeChar(c) + k) == Some((c, |EncodeChar(c)|))
  {
  }

  lemma DecodeThreeByteChar(c: char, k: Bytes)
    requires 0x800 <= c as int < 0x10000
    ensures DecodeChar(EncodeChar(c) + k) == Some((c, |EncodeChar(c)|))
  {
    var n := c as int;
    assert n == n / 0x1000 * 0x1000 + n / 0x40 % 64 * 0x40 + n % 64;
  }

  lemma DecodeFourByteChar(c: char, k: Bytes)
    requires 0x10000 <= c as int
    ensures DecodeChar(EncodeChar(c) + k) == Some((c, |EncodeChar(c)|))
  {
    var n := c as int;
    assert n == n / 0x40000 * 0x40000 + n / 0x1000 % 64 * 0x1000 + n / 0x40 % 64 * 0x40 + n % 64;
  }

  lemma DecodeCharEncode(c: char, k: Bytes)
    ensures DecodeChar(EncodeChar(c) + k) == Some((c, |EncodeChar(c)|))
  {
    if c as int < 0x800 {
      DecodeShortChar(c, k);
    } else if c as int < 0x10000 {
      DecodeThreeByteChar(c, k);
    } else {
      DecodeFourByteChar(c, k);
    }
  }

  /** Reading undoes writing on every string, so distinct strings have distinct bytes. */
  lemma {:induction false} DecodeTextEncode(s: string)
    ensures DecodeText(EncodeText(s)) == Some(s)
  {
    if s != "" {
      var b, k := EncodeChar(s[0]), EncodeText(s[1..]);
      DecodeCharEncode(s[0], k);
      DecodeTextEncode(s[1..]);
      assert (b + k)[|b|..] == k;
      assert [s[0]] + s[1..] == s;
    }
  }

  // ----- the reader is strict

  lemma ShortCharCanonical(b: Bytes)
    requires b != [] && b[0] < 0xe0 && DecodeChar(b).Some?
    ensures var (c, n) := DecodeChar(b).value; EncodeChar(c) == b[..n]
  {
  }

  lemma ThreeByteCanonical(b: Bytes)
    requires b != [] && 0xe0 <= b[0] < 0xf0 && DecodeChar(b).Some?
    ensures var (c, n) := DecodeChar(b).value; EncodeChar(c) == b[..n]
  {
    var (c, n) := DecodeChar(b).value;
    var x, y, z: int := b[0] as int - 0xe0, b[1] as int - 0x80, b[2] as int - 0x80;
    assert c as int == (x * 0x40 + y) * 0x40 + z;
    assert c as int / 0x40 == x * 0x40 + y && c as int / 0x1000 == x;
  }

  lemma FourByteCanonical(b: Bytes)
    requires b != [] && 0xf0 <= b[0] && DecodeChar(b).Some?
    ensures var (c, n) := DecodeChar(b).value; EncodeChar(c) == b[..n]
  {
    var (c, n) := DecodeChar(b).value;
    var w, x, y, z: int := b[0] as int - 0xf0, b[1] as int - 0x80, b[2] as int - 0x80, b[3] as int - 0x80;
    assert c as int == ((w * 0x40 + x) * 0x40 + y) * 0x40 + z;
    assert c as int / 0x40 == (w * 0x40 + x) * 0x40 + y && c as int / 0x1000 == w * 0x40 + x && c as int / 0x40000 == w;
  }

  lemma CharCanonical(b: Bytes)
    requires DecodeChar(b).Some?
    ensures var (c, n) := DecodeChar(b).value; EncodeChar(c) == b[..n]
  {
    if b[0] < 0xe0 {
      ShortCharCanonical(b);
    } else if b[0] < 0xf0 {
      ThreeByteCanonical(b);
    } else {
      FourByteCanonical(b);
    }
  }

  lemma EncodeCons(c: char, rest: string, head: Bytes, tail: Bytes)
    requires EncodeChar(c) == head && EncodeText(rest) == tail
    ensures EncodeText([c] + rest) == head + tail
  {
    assert ([c] + rest)[1..] == rest;
  }

  /** Only the bytes that are written for a string are read as it: no overlong form, no surrogate, no
      cut-off character. */
  lemma {:induction false} OnlyCanonical(b: Bytes)
    ensures DecodeText(b).Some? ==> EncodeText(DecodeText(b).value) == b
  {
    if b != [] && DecodeText(b).Some? {
      var (c, n) := DecodeChar(b).value;
      CharCanonical(b);
      OnlyCanonical(b[n..]);
      EncodeCons(c, DecodeText(b[n..]).value, b[..n], b[n..]);
      assert b[..n] + b[n..] == b;
    }
  }

  /** The examples of section 7 of RFC 3629: one, two and three bytes, and one of four. */
  lemma Examples()
    ensures EncodeChar('A') == [0x41] && EncodeChar(0x3b1 as char) == [0xce, 0xb1]
    ensures EncodeChar(0x2262 as char) == [0xe2, 0x89, 0xa2] && EncodeChar(0x233b4 as char) == [0xf0, 0xa3, 0x8e, 0xb4]
  {
  }
}
