/** The string operations the client relies on: suffix and prefix cutting, splitting into lines,
    trimming, and decimal numbers, each with the law that makes it usable in a round trip. */
module Text {
  import opened Wrappers

  const NEWLINE: char := '\n'
  const INT64_MAX: int := 0x7fff_ffff_ffff_ffff

  // ----- prefixes and suffixes

  predicate HasSuffix(s: string, suffix: string) {
    |suffix| <= |s| && s[|s| - |suffix|..] == suffix
  }

  function TrimSuffix(s: string, suffix: string): string {
    if HasSuffix(s, suffix) then s[..|s| - |suffix|] else s
  }

  function CutPrefix(s: string, prefix: string): Option<string> {
    if prefix <= s then Some(s[|prefix|..]) else None
  }

  lemma SuffixCut(base: string, suffix: string)
    ensures HasSuffix(base + suffix, suffix)
    ensures TrimSuffix(base + suffix, suffix) == base
  {
  }

  // ----- splitting on one separator character

  function Split(s: string, sep: char): (parts: seq<string>)
    ensures |parts| >= 1
  {
    if s == "" then [""]
    else
      var rest := Split(s[1..], sep);
      if s[0] == sep then [""] + rest else [[s[0]] + rest[0]] + rest[1..]
  }

  function Join(parts: seq<string>, sep: char): string {
    if parts == [] then ""
    else if |parts| == 1 then parts[0]
    else parts[0] + [sep] + Join(parts[1..], sep)
  }

  /** Splitting cuts at every separator and nowhere else: joined again the parts are the text, and
      none of them holds a separator. */
  lemma {:induction false} SplitJoined(s: string, sep: char)
    ensures Join(Split(s, sep), sep) == s
    ensures forall i :: 0 <= i < |Split(s, sep)| ==> sep !in Split(s, sep)[i]
  {
    if s != "" {
      var rest := Split(s[1..], sep);
      SplitJoined(s[1..], sep);
      assert s == [s[0]] + s[1..];
      if s[0] == sep {
        assert ([""] + rest)[1..] == rest;
      } else {
        JoinHead(s[0], rest, sep);
      }
    }
  }

  lemma JoinHead(c: char, parts: seq<string>, sep: char)
    requires |parts| >= 1
    ensures Join([[c] + parts[0]] + parts[1..], sep) == [c] + Join(parts, sep)
  {
    var all := [[c] + parts[0]] + parts[1..];
    assert all[1..] == parts[1..];
    if |parts| > 1 {
      assert [c] + parts[0] + [sep] + Join(parts[1..], sep) == [c] + (parts[0] + [sep] + Join(parts[1..], sep));
    }
  }

  /** Every line followed by a newline, as a sequence of Fprintf("…\n") calls writes them. */
  function Unlines(lines: seq<string>): string {
    if lines == [] then "" else lines[0] + [NEWLINE] + Unlines(lines[1..])
  }

  lemma {:induction false} UnlinesAppend(a: seq<string>, b: seq<string>)
    ensures Unlines(a + b) == Unlines(a) + Unlines(b)
  {
    if a == [] {
      assert a + b == b;
    } else {
      assert (a + b)[1..] == a[1..] + b;
      UnlinesAppend(a[1..], b);
    }
  }

  lemma {:induction false} SplitFirst(line: string, sep: char, rest: string)
    requires sep !in line
    ensures Split(line + [sep] + rest, sep) == [line] + Split(rest, sep)
  {
    var s := line + [sep] + rest;
    if line == "" {
      assert s[1..] == rest;
    } else {
      assert s[1..] == line[1..] + [sep] + rest;
      SplitFirst(line[1..], sep, rest);
      assert [line[0]] + line[1..] == line;
    }
  }

  function Count(s: string, c: char): nat {
    if s == "" then 0 else (if s[0] == c then 1 else 0) + Count(s[1..], c)
  }

  lemma {:induction false} CountAppend(a: string, b: string, c: char)
    ensures Count(a + b, c) == Count(a, c) + Count(b, c)
  {
    if a == "" {
      assert a + b == b;
    } else {
      assert (a + b)[1..] == a[1..] + b;
      CountAppend(a[1..], b, c);
    }
  }

  lemma {:induction false} CountZero(s: string, c: char)
    ensures Count(s, c) == 0 <==> c !in s
  {
    if s != "" {
      CountZero(s[1..], c);
      assert s == [s[0]] + s[1..];
    }
  }

  lemma {:induction false} SplitCount(s: string, sep: char)
    ensures |Split(s, sep)| == 1 + Count(s, sep)
  {
    if s != "" {
      SplitCount(s[1..], sep);
    }
  }

  ghost predicate SingleLines(lines: seq<string>) {
    forall i :: 0 <= i < |lines| ==> NEWLINE !in lines[i]
  }

  lemma {:induction false} UnlinesCount(lines: seq<string>)
    ensures Count(Unlines(lines), NEWLINE) >= |lines|
    ensures Count(Unlines(lines), NEWLINE) == |lines| <==> SingleLines(lines)
  {
    if lines != [] {
      UnlinesCount(lines[1..]);
      CountAppend(lines[0] + [NEWLINE], Unlines(lines[1..]), NEWLINE);
      CountAppend(lines[0], [NEWLINE], NEWLINE);
      CountZero(lines[0], NEWLINE);
      assert Count([NEWLINE], NEWLINE) == 1 by { assert [NEWLINE][1..] == ""; }
      if SingleLines(lines[1..]) && NEWLINE !in lines[0] {
        forall i | 0 <= i < |lines| ensures NEWLINE !in lines[i] {
          if i > 0 { assert lines[i] == lines[1..][i - 1]; }
        }
      }
      if SingleLines(lines) {
        forall i | 0 <= i < |lines[1..]| ensures NEWLINE !in lines[1..][i] {
          assert lines[1..][i] == lines[i + 1];
        }
      }
    }
  }

  lemma {:induction false} SplitSingleLines(lines: seq<string>)
    requires SingleLines(lines)
    ensures Split(Unlines(lines), NEWLINE) == lines + [""]
  {
    if lines == [] {
    } else {
      forall i | 0 <= i < |lines[1..]| ensures NEWLINE !in lines[1..][i] {
        assert lines[1..][i] == lines[i + 1];
      }
      SplitFirst(lines[0], NEWLINE, Unlines(lines[1..]));
      SplitSingleLines(lines[1..]);
      assert [lines[0]] + (lines[1..] + [""]) == lines + [""];
    }
  }

  /** Splitting on newlines gives back exactly the lines written, if and only if none of them
      holds a newline of its own. */
  lemma SplitUnlines(lines: seq<string>)
    ensures Split(Unlines(lines), NEWLINE) == lines + [""] <==> SingleLines(lines)
  {
    if SingleLines(lines) {
      SplitSingleLines(lines);
    } else {
      SplitCount(Unlines(lines), NEWLINE);
      UnlinesCount(lines);
    }
  }

  // ----- trimming white space

  /** The characters strings.TrimSpace removes (Unicode property White_Space). */
  predicate IsSpace(c: char) {
    var n := c as int;
    0x09 <= n <= 0x0d || n == 0x20 || n == 0x85 || n == 0xa0 || n == 0x1680 || 0x2000 <= n <= 0x200a
    || n == 0x2028 || n == 0x2029 || n == 0x202f || n == 0x205f || n == 0x3000
  }

  /** In ASCII that is the blank and the five control characters from tab to carriage return. */
  lemma AsciiSpace(c: char)
    requires c as int < 0x80
    ensures IsSpace(c) <==> c == ' ' || '\t' <= c <= '\r'
  {
  }

  function TrimLeft(s: string): string {
    if s != "" && IsSpace(s[0]) then TrimLeft(s[1..]) else s
  }

  function TrimRight(s: string): string {
    if s != "" && IsSpace(s[|s| - 1]) then TrimRight(s[..|s| - 1]) else s
  }

  function TrimSpace(s: string): string {
    TrimRight(TrimLeft(s))
  }

  ghost predicate AllSpace(s: string) {
    forall i :: 0 <= i < |s| ==> IsSpace(s[i])
  }

  /** No white space at either end. */
  ghost predicate Trimmed(s: string) {
    s != "" ==> !IsSpace(s[0]) && !IsSpace(s[|s| - 1])
  }

  lemma {:induction false} TrimLeftPad(pad: string, s: string)
    requires AllSpace(pad)
    ensures TrimLeft(pad + s) == TrimLeft(s)
  {
    if pad == "" {
      assert pad + s == s;
    } else {
      assert (pad + s)[1..] == pad[1..] + s;
      TrimLeftPad(pad[1..], s);
    }
  }

  lemma {:induction false} TrimRightPad(s: string, pad: string)
    requires AllSpace(pad)
    ensures TrimRight(s + pad) == TrimRight(s)
  {
    if pad == "" {
      assert s + pad == s;
    } else {
      assert (s + pad)[..|s + pad| - 1] == s + pad[..|pad| - 1];
      TrimRightPad(s, pad[..|pad| - 1]);
    }
  }

  lemma {:induction false} TrimLeftResult(s: string)
    ensures var t := TrimLeft(s); |t| <= |s| && t == s[|s| - |t|..] && (t != "" ==> !IsSpace(t[0]))
  {
    if s != "" && IsSpace(s[0]) {
      TrimLeftResult(s[1..]);
    }
  }

  lemma {:induction false} TrimRightResult(s: string)
    ensures var t := TrimRight(s); t <= s && (t != "" ==> !IsSpace(t[|t| - 1]))
  {
    if s != "" && IsSpace(s[|s| - 1]) {
      TrimRightResult(s[..|s| - 1]);
    }
  }

  lemma TrimSpaceTrimmed(s: string)
    ensures Trimmed(TrimSpace(s))
  {
    TrimLeftResult(s);
    TrimRightResult(TrimLeft(s));
  }

  lemma TrimSpacePadded(left: string, s: string, right: string)
    requires AllSpace(left) && AllSpace(right) && Trimmed(s)
    ensures TrimSpace(left + s + right) == s
  {
    assert left + s + right == left + (s + right);
    TrimLeftPad(left, s + right);
    if s == "" {
      assert s + right == right;
      assert right + "" == right;
      TrimLeftPad(right, "");
    } else {
      TrimRightPad(s, right);
    }
  }

  // ----- decimal numbers

  predicate IsDigit(c: char) { '0' <= c <= '9' }

  ghost predicate AllDigits(s: string) {
    forall i :: 0 <= i < |s| ==> IsDigit(s[i])
  }

  function DigitChar(d: nat): (c: char)
    requires d < 10
    ensures IsDigit(c) && c as int == '0' as int + d
  {
    ('0' as int + d) as char
  }

  function Dec(n: nat): (s: string)
    ensures s != "" && AllDigits(s)
    ensures s[0] == '0' ==> n == 0 && s == "0"
  {
    if n < 10 then [DigitChar(n)] else Dec(n / 10) + [DigitChar(n % 10)]
  }

  /** The value of a digit string, or None when some character is not a digit. */
  function DecValue(s: string): Option<nat> {
    if s == "" then Some(0)
    else
      var last := s[|s| - 1];
      match DecValue(s[..|s| - 1])
      case Some(v) => if IsDigit(last) then Some(10 * v + (last as int - '0' as int)) else None
      case None => None
  }

  lemma {:induction false} DecValueDec(n: nat)
    ensures DecValue(Dec(n)) == Some(n)
  {
    if n < 10 {
      assert Dec(n)[..0] == "";
    } else {
      DecValueDec(n / 10);
      assert Dec(n)[..|Dec(n)| - 1] == Dec(n / 10);
    }
  }

  function Itoa(i: int): (s: string)
    ensures s != "" && (s[0] == '-' || IsDigit(s[0]))
  {
    if i < 0 then "-" + Dec(-i) else Dec(i)
  }

  /** strconv.ParseInt(s, 10, 64): an optional sign, then digits only, within 64 bits. */
  function ParseInt64(s: string): (r: Option<int>)
    ensures r.Some? ==> -INT64_MAX - 1 <= r.value <= INT64_MAX
  {
    if s == "" then None
    else
      var negative := s[0] == '-';
      var digits := if s[0] == '-' || s[0] == '+' then s[1..] else s;
      if digits == "" then None
      else match DecValue(digits)
      case None => None
      case Some(v) =>
        var n: int := v;
        var i := if negative then -n else n;
        if -INT64_MAX - 1 <= i <= INT64_MAX then Some(i) else None
  }

  lemma {:induction false} DecValueAccepts(s: string)
    ensures DecValue(s).Some? <==> AllDigits(s)
  {
    if s != "" {
      var n := |s| - 1;
      DecValueAccepts(s[..n]);
      if AllDigits(s[..n]) && IsDigit(s[n]) {
        forall i | 0 <= i < |s| ensures IsDigit(s[i]) {
          if i < n { assert s[..n][i] == s[i]; }
        }
      }
      if AllDigits(s) {
        forall i | 0 <= i < n ensures IsDigit(s[..n][i]) { assert s[..n][i] == s[i]; }
      }
    }
  }

  /** What is read as an integer is decimal digits, at least one, after at most one sign, and within
      64 bits; everything else is refused. */
  lemma ParseInt64Accepts(s: string)
    ensures ParseInt64(s).Some? <==>
            var digits := if s != "" && (s[0] == '-' || s[0] == '+') then s[1..] else s;
            digits != "" && AllDigits(digits) && DecValue(digits).Some? &&
            DecValue(digits).value <= if s[0] == '-' then 0x8000_0000_0000_0000 else 0x7fff_ffff_ffff_ffff
  {
    var digits := if s != "" && (s[0] == '-' || s[0] == '+') then s[1..] else s;
    DecValueAccepts(digits);
  }

  lemma Decimals()
    ensures Dec(204) == "204" && DecValue("204") == Some(204) && Itoa(-204) == "-204" && Itoa(204) == "204"
  {
    assert Dec(20) == "20" && Dec(2) == "2";
    DecValueDec(204);
  }

  lemma ParseInt64Digits(digits: string, n: int)
    requires digits != "" && IsDigit(digits[0]) && n >= 0 && DecValue(digits) == Some(n)
    ensures n <= INT64_MAX ==> ParseInt64(digits) == Some(n)
    ensures n <= INT64_MAX + 1 ==> ParseInt64("-" + digits) == Some(-n)
  {
  }

  lemma ParseInt64Itoa(i: int)
    requires -INT64_MAX - 1 <= i <= INT64_MAX
    ensures ParseInt64(Itoa(i)) == Some(i)
  {
    var n := if i < 0 then -i else i;
    DecValueDec(n);
    ParseInt64Digits(Dec(n), n);
  }

  lemma DecTrimmed(n: nat)
    ensures Trimmed(Dec(n))
  {
  }
}
