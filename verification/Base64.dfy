/** Padded standard base64 (sections 4 and 8 of RFC 4648: base64 and base16) as Go's encoders and
    decoders implement them, and the conversion of a WireGuard key from base64 to hex. */
module Base64 {
  import opened Wrappers
  import opened Text

  type byte = b: int | 0 <= b < 256
  type Bytes = seq<byte>
  type sextet = b: int | 0 <= b < 64

  const PAD: char := '='

  // ----- the alphabet

  function CharOf(i: sextet): (c: char)
    ensures c != PAD && !IsSpace(c) && c != '"' && c != '\\' && 0x20 <= c as int < 0x7f
    ensures c != '<' && c != '>' && c != '&' && c != '-'
  {
    if i < 26 then ('A' as int + i) as char
    else if i < 52 then ('a' as int + (i - 26)) as char
    else if i < 62 then ('0' as int + (i - 52)) as char
    else if i == 62 then '+' else '/'
  }

  function IndexOf(c: char): Option<sextet> {
    if 'A' <= c <= 'Z' then Some(c as int - 'A' as int)
    else if 'a' <= c <= 'z' then Some(c as int - 'a' as int + 26)
    else if '0' <= c <= '9' then Some(c as int - '0' as int + 52)
    else if c == '+' then Some(62)
    else if c == '/' then Some(63)
    else None
  }

  lemma IndexOfCharOf(i: sextet)
    ensures IndexOf(CharOf(i)) == Some(i)
  {
  }

  /** A character stands for a sextet exactly when it is that sextet's character. */
  lemma IndexOfExactly(c: char, i: sextet)
    ensures IndexOf(c) == Some(i) <==> CharOf(i) == c
  {
  }

  function ToChars(q: seq<sextet>): (s: string)
    ensures |s| == |q|
  {
    if q == [] then "" else [CharOf(q[0])] + ToChars(q[1..])
  }

  function FromChars(s: string): Option<seq<sextet>> {
    if s == "" then Some([])
    else
      var i :- IndexOf(s[0]);
      var rest :- FromChars(s[1..]);
      Some([i] + rest)
  }

  lemma {:induction false} FromCharsToChars(q: seq<sextet>)
    ensures FromChars(ToChars(q)) == Some(q)
  {
    if q != [] {
      IndexOfCharOf(q[0]);
      FromCharsToChars(q[1..]);
      assert ToChars(q) == [CharOf(q[0])] + ToChars(q[1..]);
      assert ToChars(q)[1..] == ToChars(q[1..]);
      assert [q[0]] + q[1..] == q;
    }
  }

  lemma {:induction false} ToCharsAt(q: seq<sextet>)
    ensures forall i :: 0 <= i < |q| ==> ToChars(q)[i] == CharOf(q[i])
  {
    if q != [] {
      ToCharsAt(q[1..]);
      var s, rest := ToChars(q), ToChars(q[1..]);
      assert s == [CharOf(q[0])] + rest;
      forall i | 0 <= i < |q| ensures s[i] == CharOf(q[i]) {
        if i > 0 { assert s[i] == rest[i - 1] && q[i] == q[1..][i - 1]; }
      }
    }
  }

  /** Encoded text holds no white space, no padding and no dash. */
  lemma ToCharsPlain(q: seq<sextet>)
    ensures var s := ToChars(q); forall i :: 0 <= i < |s| ==> !IsSpace(s[i]) && s[i] != PAD && s[i] != '-'
  {
    ToCharsAt(q);
    forall i | 0 <= i < |q| ensures !IsSpace(ToChars(q)[i]) && ToChars(q)[i] != PAD && ToChars(q)[i] != '-' {
      assert ToChars(q)[i] == CharOf(q[i]);
    }
  }

  // ----- bytes as sextets: three bytes are four sextets, a rest of one or two bytes two or three

  function ToSextets(b: Bytes): (q: seq<sextet>)
    ensures |q| == |b| + |b| / 3 + (if |b| % 3 == 0 then 0 else 1)
  {
    if b == [] then []
    else if |b| == 1 then [b[0] / 4, b[0] % 4 * 16]
    else if |b| == 2 then [b[0] / 4, b[0] % 4 * 16 + b[1] / 16, b[1] % 16 * 4]
    else [b[0] / 4, b[0] % 4 * 16 + b[1] / 16, b[1] % 16 * 4 + b[2] / 64, b[2] % 64] + ToSextets(b[3..])
  }

  /** The bits a last, shorter group does not need are ignored, as in Go's non-strict decoder. */
  function FromSextets(q: seq<sextet>): Bytes {
    if |q| < 2 then []
    else if |q| == 2 then [FirstByte(q[0], q[1])]
    else if |q| == 3 then [FirstByte(q[0], q[1]), SecondByte(q[1], q[2])]
    else [FirstByte(q[0], q[1]), SecondByte(q[1], q[2]), ThirdByte(q[2], q[3])] + FromSextets(q[4..])
  }

  function FirstByte(a: sextet, b: sextet): byte {
    var x: int := a;
    x * 4 + b / 16
  }

  function SecondByte(b: sextet, c: sextet): byte {
    var x: int := b % 16;
    x * 16 + c / 4
  }

  function ThirdByte(c: sextet, d: sextet): byte {
    var x: int := c % 4;
    x * 64 + d
  }

  lemma GroupBack(a: byte, b: byte, c: byte)
    ensures FirstByte(a / 4, a % 4 * 16 + b / 16) == a
    ensures SecondByte(a % 4 * 16 + b / 16, b % 16 * 4 + c / 64) == b
    ensures ThirdByte(b % 16 * 4 + c / 64, c % 64) == c
  {
  }

  lemma JoinGroup(w: sextet, x: sextet, y: sextet, z: sextet, rest: seq<sextet>)
    ensures FromSextets([w, x, y, z] + rest) == [FirstByte(w, x), SecondByte(x, y), ThirdByte(y, z)] + FromSextets(rest)
  {
    assert ([w, x, y, z] + rest)[4..] == rest;
  }

  /** The four sextets of three bytes join to those bytes again. */
  lemma GroupThenRest(a: byte, b: byte, c: byte, w: sextet, x: sextet, y: sextet, z: sextet, rest: seq<sextet>)
    requires w == a / 4 && x == a % 4 * 16 + b / 16 && y == b % 16 * 4 + c / 64 && z == c % 64
    ensures FromSextets([w, x, y, z] + rest) == [a, b, c] + FromSextets(rest)
  {
    GroupBack(a, b, c);
    JoinGroup(w, x, y, z, rest);
  }

  lemma {:induction false} FromSextetsToSextets(b: Bytes)
    ensures FromSextets(ToSextets(b)) == b
  {
    if |b| > 2 {
      FromSextetsToSextets(b[3..]);
      GroupThenRest(b[0], b[1], b[2], b[0] / 4, b[0] % 4 * 16 + b[1] / 16, b[1] % 16 * 4 + b[2] / 64, b[2] % 64,
                    ToSextets(b[3..]));
      assert [b[0], b[1], b[2]] + b[3..] == b;
    } else if |b| == 2 {
      TwoBack(b[0], b[1], b[0] / 4, b[0] % 4 * 16 + b[1] / 16, b[1] % 16 * 4);
      assert [b[0], b[1]] == b;
    } else if |b| == 1 {
      OneBack(b[0], b[0] / 4, b[0] % 4 * 16);
      assert [b[0]] == b;
    }
  }

  lemma TwoBack(a: byte, b: byte, w: sextet, x: sextet, y: sextet)
    requires w == a / 4 && x == a % 4 * 16 + b / 16 && y == b % 16 * 4
    ensures FromSextets([w, x, y]) == [a, b]
  {
    var n: int := b;
    assert n / 16 < 16 && n == n / 16 * 16 + n % 16;
    assert FirstByte(w, x) == a && SecondByte(x, y) == b;
  }

  lemma OneBack(a: byte, w: sextet, x: sextet)
    requires w == a / 4 && x == a % 4 * 16
    ensures FromSextets([w, x]) == [a]
  {
    assert FirstByte(w, x) == a;
  }

  // ----- padded text

  function Padding(n: nat): string {
    if n % 3 == 0 then "" else if n % 3 == 1 then [PAD, PAD] else [PAD]
  }

  function Encode(b: Bytes): string {
    ToChars(ToSextets(b)) + Padding(|b|)
  }

  function Unpadded(s: string): string {
    if s == "" || s[|s| - 1] != PAD then s
    else if |s| == 1 || s[|s| - 2] != PAD then s[..|s| - 1]
    else s[..|s| - 2]
  }

  /** StdEncoding skips line ends anywhere in its input. */
  function DropLineEnds(s: string): (t: string)
    ensures |t| <= |s|
  {
    if s == "" then ""
    else if s[0] == '\n' || s[0] == '\r' then DropLineEnds(s[1..])
    else [s[0]] + DropLineEnds(s[1..])
  }

  /** Whole groups of four characters, of which at most the last two are padding. */
  function Decode(s: string): Option<Bytes> {
    var t := DropLineEnds(s);
    if |t| % 4 != 0 then None
    else
      var q :- FromChars(Unpadded(t));
      Some(FromSextets(q))
  }

  lemma {:induction false} DropLineEndsClean(s: string)
    requires forall i :: 0 <= i < |s| ==> s[i] != '\n' && s[i] != '\r'
    ensures DropLineEnds(s) == s
  {
    if s != "" {
      DropLineEndsClean(s[1..]);
    }
  }

  lemma EncodePlain(b: Bytes)
    ensures var s := Encode(b); forall i :: 0 <= i < |s| ==> !IsSpace(s[i]) && s[i] != '-' && s[i] != '\n' && s[i] != '\r'
    ensures |Encode(b)| % 4 == 0 && (b != [] ==> Encode(b) != "")
  {
    var q := ToSextets(b);
    ToCharsPlain(q);
    assert |ToChars(q)| == |q|;
    var s := Encode(b);
    forall i | 0 <= i < |s| ensures !IsSpace(s[i]) && s[i] != '-' {
      assert i < |q| ==> s[i] == ToChars(q)[i];
      assert i >= |q| ==> s[i] == PAD;
    }
  }

  lemma UnpaddedEncode(b: Bytes)
    ensures Unpadded(Encode(b)) == ToChars(ToSextets(b))
  {
    var chars := ToChars(ToSextets(b));
    ToCharsPlain(ToSextets(b));
    assert Encode(b)[..|chars|] == chars;
  }

  /** Decoding undoes encoding on every byte string. */
  lemma DecodeEncode(b: Bytes)
    ensures Decode(Encode(b)) == Some(b)
  {
    EncodePlain(b);
    DropLineEndsClean(Encode(b));
    UnpaddedEncode(b);
    FromCharsToChars(ToSextets(b));
    FromSextetsToSextets(b);
  }

  // ----- what the encoding looks like

  /** The alphabet of section 4 of RFC 4648: A to Z, a to z, 0 to 9, + and /. */
  lemma Alphabet(i: sextet)
    ensures CharOf(0) == 'A' && CharOf(25) == 'Z' && CharOf(26) == 'a' && CharOf(51) == 'z'
    ensures CharOf(52) == '0' && CharOf(61) == '9' && CharOf(62) == '+' && CharOf(63) == '/'
    ensures i < 61 && i != 25 && i != 51 ==> CharOf(i + 1) as int == CharOf(i) as int + 1
  {
  }

  /** Four sextets are the 24 bits of three bytes, most significant first. */
  lemma GroupBits(a: byte, b: byte, c: byte)
    ensures var q := ToSextets([a, b, c]);
            |q| == 4 && FromDigits([q[0], q[1], q[2], q[3]], 64) == FromDigits([a, b, c], 256)
  {
    assert [a, b, c][3..] == [];
    var w, x, y, z := a / 4, a % 4 * 16 + b / 16, b % 16 * 4 + c / 64, c % 64;
    assert ToSextets([a, b, c]) == [w, x, y, z] + ToSextets([]);
    assert ToSextets([]) == [];
    assert [w, x, y, z] + [] == [w, x, y, z];
    FourDigits(w, x, y, z, 64);
    ThreeDigits(a, b, c, 256);
  }

  /** The number that digits of this base spell, most significant first. */
  function FromDigits(digits: seq<int>, base: int): int {
    if digits == [] then 0
    else FromDigits(digits[..|digits| - 1], base) * base + digits[|digits| - 1]
  }

  lemma ThreeDigits(a: int, b: int, c: int, base: int)
    ensures FromDigits([a, b, c], base) == (a * base + b) * base + c
  {
    assert [a, b, c][..2] == [a, b] && [a, b][..1] == [a] && [a][..0] == [];
    assert FromDigits([], base) * base == 0;
    assert FromDigits([a], base) == a;
    assert FromDigits([a, b], base) == a * base + b;
  }

  lemma FourDigits(a: int, b: int, c: int, d: int, base: int)
    ensures FromDigits([a, b, c, d], base) == ((a * base + b) * base + c) * base + d
  {
    ThreeDigits(a, b, c, base);
    assert [a, b, c, d][..3] == [a, b, c];
  }

  /** The test vectors of section 10 of RFC 4648 for f, fo and foo. */
  lemma TestVectors()
    ensures Encode([0x66]) == "Zg==" && Encode([0x66, 0x6f]) == "Zm8=" && Encode([0x66, 0x6f, 0x6f]) == "Zm9v"
  {
    OneGroup([25, 32]);
    OneGroup([25, 38, 60]);
    OneGroup([25, 38, 61, 47]);
    assert [0x66 as byte, 0x6f, 0x6f][3..] == [];
    assert ToSextets([]) == [];
    var group := [25 as sextet, 38, 61, 47];
    assert ToSextets([0x66, 0x6f, 0x6f]) == group + [] == group;
  }

  lemma OneGroup(q: seq<sextet>)
    ensures |ToChars(q)| == |q| && forall i :: 0 <= i < |q| ==> ToChars(q)[i] == CharOf(q[i])
  {
    ToCharsAt(q);
  }

  lemma {:induction false} DropLineEndsAppend(a: string, b: string)
    ensures DropLineEnds(a + b) == DropLineEnds(a) + DropLineEnds(b)
  {
    if a == "" {
      assert a + b == b;
    } else {
      assert (a + b)[1..] == a[1..] + b;
      DropLineEndsAppend(a[1..], b);
    }
  }

  /** A line end anywhere in a text changes nothing of what it decodes to. */
  lemma LineEndsIgnored(a: string, end: char, b: string)
    requires end == '\n' || end == '\r'
    ensures Decode(a + [end] + b) == Decode(a + b)
  {
    DropLineEndsAppend(a + [end], b);
    DropLineEndsAppend(a, [end]);
    DropLineEndsAppend(a, b);
    assert DropLineEnds([end]) == "";
    assert DropLineEnds(a) + "" == DropLineEnds(a);
  }

  lemma {:induction false} FromCharsRefuses(s: string, i: nat)
    requires i < |s| && IndexOf(s[i]).None?
    ensures FromChars(s).None?
  {
    if i > 0 { FromCharsRefuses(s[1..], i - 1); }
  }

  /** So does a length, line ends apart, that is no multiple of four. */
  lemma LengthRefused(s: string)
    requires |DropLineEnds(s)| % 4 != 0
    ensures Decode(s).None?
  {
  }

  /** And padding anywhere but in the last two places. */
  lemma PaddingRefused(s: string, i: nat)
    requires forall k :: 0 <= k < |s| ==> s[k] != '\n' && s[k] != '\r'
    requires i + 2 < |s| && s[i] == '='
    ensures Decode(s).None?
  {
    DropLineEndsClean(s);
    var u := Unpadded(s);
    assert u[i] == s[i];
    FromCharsRefuses(u, i);
  }

  /** Any other foreign character makes a text undecodable. */
  lemma ForeignRefused(s: string, i: nat)
    requires i < |s| && s[i] != '\n' && s[i] != '\r' && s[i] != '=' && IndexOf(s[i]).None?
    ensures Decode(s).None?
  {
    var t := DropLineEnds(s);
    var k := DropLineEnds(s[..i]);
    DropLineEndsAppend(s[..i], s[i..]);
    assert s == s[..i] + s[i..] && s[i..][0] == s[i];
    assert t[|k|] == s[i];
    var u := Unpadded(t);
    assert |k| < |u| && u[|k|] == t[|k|];
    FromCharsRefuses(u, |k|);
  }

  // ----- hex

  function HexDigit(d: nat): (c: char)
    requires d < 16
    ensures IsHexDigit(c)
  {
    if d < 10 then DigitChar(d) else ('a' as int + (d - 10)) as char
  }

  predicate IsHexDigit(c: char) { '0' <= c <= '9' || 'a' <= c <= 'f' }

  function HexValue(c: char): nat
    requires IsHexDigit(c)
    ensures HexValue(c) < 16
  {
    if c <= '9' then c as int - '0' as int else c as int - 'a' as int + 10
  }

  function HexEncode(b: Bytes): (s: string)
    ensures |s| == 2 * |b|
    ensures forall i :: 0 <= i < |s| ==> IsHexDigit(s[i])
  {
    if b == [] then "" else [HexDigit(b[0] / 16), HexDigit(b[0] % 16)] + HexEncode(b[1..])
  }

  function HexDecode(s: string): Option<Bytes> {
    if s == "" then Some([])
    else if |s| == 1 || !IsHexDigit(s[0]) || !IsHexDigit(s[1]) then None
    else match HexDecode(s[2..])
      case Some(rest) =>
        var high: byte := HexValue(s[0]) * 16;
        Some([high + HexValue(s[1])] + rest)
      case None => None
  }

  lemma {:induction false} HexDecodeEncode(b: Bytes)
    ensures HexDecode(HexEncode(b)) == Some(b)
  {
    if b != [] {
      HexDecodeEncode(b[1..]);
      HexByte(b[0], b[0] / 16, b[0] % 16, HexEncode(b[1..]), b[1..]);
      assert b == [b[0]] + b[1..];
    }
  }

  lemma HexByte(b: byte, high: nat, low: nat, text: string, rest: Bytes)
    requires high < 16 && low < 16 && b == high * 16 + low && HexDecode(text) == Some(rest)
    ensures HexDecode([HexDigit(high), HexDigit(low)] + text) == Some([b] + rest)
  {
    assert ([HexDigit(high), HexDigit(low)] + text)[2..] == text;
    assert HexValue(HexDigit(high)) == high && HexValue(HexDigit(low)) == low;
  }

  lemma HexDigits(d: nat)
    requires d < 16
    ensures HexDigit(d) == "0123456789abcdef"[d]
  {
  }

  /** Two digits a byte, the high one first. */
  lemma {:induction false} HexAt(b: Bytes, i: nat)
    requires i < |b|
    ensures HexEncode(b)[2 * i] == HexDigit(b[i] / 16) && HexEncode(b)[2 * i + 1] == HexDigit(b[i] % 16)
  {
    var pair, rest := [HexDigit(b[0] / 16), HexDigit(b[0] % 16)], HexEncode(b[1..]);
    assert HexEncode(b) == pair + rest;
    if i > 0 {
      HexAt(b[1..], i - 1);
    }
  }

  // ----- keys

  datatype KeyError = BadBase64 | BadLength(got: nat)

  const KEY_SIZE: nat := 32

  /** keyHex: a base64 key, with white space around it allowed, as lowercase hex. */
  function KeyHex(b64: string): Result<string, KeyError> {
    match Decode(TrimSpace(b64))
    case None => Err(BadBase64)
    case Some(raw) => if |raw| != KEY_SIZE then Err(BadLength(|raw|)) else Ok(HexEncode(raw))
  }

  /** A key that converts is 64 lowercase hex digits, and those digits spell exactly the 32 bytes
      the base64 text denotes. */
  lemma KeyHexDenotes(b64: string, hex: string)
    requires KeyHex(b64) == Ok(hex)
    ensures |hex| == 64 && forall i :: 0 <= i < |hex| ==> IsHexDigit(hex[i])
    ensures HexDecode(hex) == Decode(TrimSpace(b64))
  {
    HexDecodeEncode(Decode(TrimSpace(b64)).value);
  }

  /** A key that does not convert is reported as what it is: no base64, or of the wrong length. */
  lemma KeyHexReports(b64: string)
    ensures KeyHex(b64) == Err(BadBase64) <==> Decode(TrimSpace(b64)).None?
    ensures forall n :: KeyHex(b64) == Err(BadLength(n)) <==>
              Decode(TrimSpace(b64)).Some? && |Decode(TrimSpace(b64)).value| == n && n != 32
  {
  }

  /** Every 32-byte key survives base64, surrounding white space and hex. */
  lemma KeyHexRoundTrip(key: Bytes, left: string, right: string)
    requires |key| == KEY_SIZE && AllSpace(left) && AllSpace(right)
    ensures var r := KeyHex(left + Encode(key) + right); r.Ok? && HexDecode(r.value) == Some(key)
  {
    var s := Encode(key);
    EncodePlain(key);
    TrimSpacePadded(left, s, right);
    DecodeEncode(key);
    HexDecodeEncode(key);
  }

  /** Conversion succeeds exactly on texts denoting 32 bytes, and two texts give the same hex
      exactly when they denote the same key: distinct keys never collide. */
  lemma KeyHexInjective(a: string, b: string)
    ensures KeyHex(a).Ok? <==> Decode(TrimSpace(a)).Some? && |Decode(TrimSpace(a)).value| == KEY_SIZE
    ensures KeyHex(a).Ok? && KeyHex(b).Ok? ==>
              (KeyHex(a) == KeyHex(b) <==> Decode(TrimSpace(a)) == Decode(TrimSpace(b)))
  {
    if KeyHex(a).Ok? && KeyHex(b).Ok? {
      KeyHexDenotes(a, KeyHex(a).value);
      KeyHexDenotes(b, KeyHex(b).value);
    }
  }
}
