/** The compact JSON that Go's encoding/json prints, a reader for it, and their round trip.
    Printing is written in continuation style: PrintTo(v, k) is the text of v followed by k. */
module Json {
  import opened Wrappers
  import opened Text
  import opened Base64

  datatype Json =
    | Null
    | Bool(b: bool)
    | Num(lit: string)
    | Str(text: string)
    | Arr(items: Items)
    | Obj(fields: Fields)

  datatype Items = INil | ICons(head: Json, tail: Items)

  datatype Fields = FNil | FCons(key: string, value: Json, rest: Fields)

  // ----- numbers

  predicate NumChar(c: char) {
    IsDigit(c) || c == '-' || c == '+' || c == '.' || c == 'e' || c == 'E'
  }

  function LeadingDigits(s: string): (n: nat)
    ensures n <= |s|
  {
    if s != "" && IsDigit(s[0]) then 1 + LeadingDigits(s[1..]) else 0
  }

  predicate ValidExponent(s: string) {
    s == "" ||
    ((s[0] == 'e' || s[0] == 'E') &&
     var digits := if |s| > 1 && (s[1] == '+' || s[1] == '-') then s[2..] else s[1..];
     digits != "" && LeadingDigits(digits) == |digits|)
  }

  predicate ValidFraction(s: string) {
    if s != "" && s[0] == '.' then
      var n := LeadingDigits(s[1..]);
      n > 0 && ValidExponent(s[1 + n..])
    else
      ValidExponent(s)
  }

  /** The number grammar of section 6 of RFC 8259. */
  predicate ValidNumber(s: string) {
    var t := if s != "" && s[0] == '-' then s[1..] else s;
    var n := LeadingDigits(t);
    n > 0 && (t[0] == '0' ==> n == 1) && ValidFraction(t[n..])
  }

  function NumToken(s: string): (n: nat)
    ensures n <= |s|
  {
    if s != "" && NumChar(s[0]) then 1 + NumToken(s[1..]) else 0
  }

  // ----- well-formed values: the number literals are numbers

  ghost predicate WellFormed(v: Json) {
    match v
    case Num(lit) => ValidNumber(lit) && NumToken(lit) == |lit|
    case Arr(items) => WellFormedItems(items)
    case Obj(fields) => WellFormedFields(fields)
    case _ => true
  }

  ghost predicate WellFormedItems(items: Items) {
    items.ICons? ==> WellFormed(items.head) && WellFormedItems(items.tail)
  }

  ghost predicate WellFormedFields(fields: Fields) {
    fields.FCons? ==> WellFormed(fields.value) && WellFormedFields(fields.rest)
  }

  // ----- printing

  function UEscape(n: nat): string
    requires n < 0x10000
  {
    ['\\', 'u', HexDigit(n / 0x1000), HexDigit(n / 0x100 % 16), HexDigit(n / 16 % 16), HexDigit(n % 16)]
  }

  /** How one character of a string is written; HTML-significant characters are escaped. */
  function Escape(c: char): (s: string)
    ensures s != ""
  {
    var n := c as int;
    if c == '"' || c == '\\' then ['\\', c]
    else if n == 0x08 then ['\\', 'b']
    else if n == 0x09 then ['\\', 't']
    else if n == 0x0a then ['\\', 'n']
    else if n == 0x0c then ['\\', 'f']
    else if n == 0x0d then ['\\', 'r']
    else if n < 0x20 || c == '<' || c == '>' || c == '&' || n == 0x2028 || n == 0x2029 then UEscape(n)
    else [c]
  }

  function EscapeTo(s: string, k: string): string {
    if s == "" then k else Escape(s[0]) + EscapeTo(s[1..], k)
  }

  function QuoteTo(s: string, k: string): string {
    ['"'] + EscapeTo(s, ['"'] + k)
  }

  /** The text of v followed by k, with the white space w between its tokens. */
  function PrintTo(v: Json, w: string, k: string): string {
    match v
    case Null => "null" + k
    case Bool(b) => (if b then "true" else "false") + k
    case Num(lit) => lit + k
    case Str(text) => QuoteTo(text, k)
    case Arr(INil) => "[" + (w + ("]" + k))
    case Arr(ICons(head, tail)) => "[" + (w + PrintTo(head, w, w + ItemsTo(tail, w, k)))
    case Obj(FNil) => "{" + (w + ("}" + k))
    case Obj(FCons(key, value, rest)) =>
      "{" + (w + QuoteTo(key, w + (":" + (w + PrintTo(value, w, w + FieldsTo(rest, w, k))))))
  }

  function ItemsTo(items: Items, w: string, k: string): string {
    match items
    case INil => "]" + k
    case ICons(head, tail) => "," + (w + PrintTo(head, w, w + ItemsTo(tail, w, k)))
  }

  function FieldsTo(fields: Fields, w: string, k: string): string {
    match fields
    case FNil => "}" + k
    case FCons(key, value, rest) =>
      "," + (w + QuoteTo(key, w + (":" + (w + PrintTo(value, w, w + FieldsTo(rest, w, k))))))
  }

  /** json.Marshal of a value: compact, with no white space at all. */
  function Marshal(v: Json): string {
    PrintTo(v, "", "")
  }

  // ----- reading

  predicate IsJsonSpace(c: char) {
    c == ' ' || c == '\t' || c == '\n' || c == '\r'
  }

  function SkipSpace(s: string): (r: string)
    ensures |r| <= |s|
    ensures r != "" ==> !IsJsonSpace(r[0])
  {
    if s != "" && IsJsonSpace(s[0]) then SkipSpace(s[1..]) else s
  }

  function AnyHexValue(c: char): Option<nat> {
    if IsHexDigit(c) then Some(HexValue(c))
    else if 'A' <= c <= 'F' then Some(c as int - 'A' as int + 10) else None
  }

  /** The code unit of a \uXXXX escape at the start of s. */
  function UnitAt(s: string): (r: Option<nat>)
    ensures r.Some? ==> |s| >= 6 && r.value < 0x10000
  {
    if |s| < 6 || s[0] != '\\' || s[1] != 'u' then None
    else
      var a :- AnyHexValue(s[2]);
      var b :- AnyHexValue(s[3]);
      var c :- AnyHexValue(s[4]);
      var d :- AnyHexValue(s[5]);
      if a < 16 && b < 16 && c < 16 && d < 16 then Some(a * 0x1000 + b * 0x100 + c * 16 + d) else None
  }

  const REPLACEMENT: char := 0xfffd as char

  /** One escaped character and how many characters of the text it takes; a high surrogate joins
      a following low one, and a lone surrogate reads as U+FFFD. */
  function UnescapeUnit(s: string): (r: Option<(char, nat)>)
    ensures r.Some? ==> 0 < r.value.1 <= |s|
  {
    var u :- UnitAt(s);
    if u < 0xd800 || 0xe000 <= u then Some((u as char, 6))
    else if u < 0xdc00 then
      match UnitAt(s[6..])
      case Some(w) =>
        if 0xdc00 <= w < 0xe000 then Some(((0x10000 + (u - 0xd800) * 0x400 + (w - 0xdc00)) as char, 12))
        else Some((REPLACEMENT, 6))
      case None => Some((REPLACEMENT, 6))
    else Some((REPLACEMENT, 6))
  }

  function Unescape(s: string): (r: Option<(char, nat)>)
    ensures r.Some? ==> 0 < r.value.1 <= |s|
  {
    if |s| < 2 || s[0] != '\\' then None
    else
      var c := s[1];
      if c == '"' || c == '\\' || c == '/' then Some((c, 2))
      else if c == 'b' then Some((0x08 as char, 2))
      else if c == 't' then Some((0x09 as char, 2))
      else if c == 'n' then Some((0x0a as char, 2))
      else if c == 'f' then Some((0x0c as char, 2))
      else if c == 'r' then Some((0x0d as char, 2))
      else UnescapeUnit(s)
  }

  /** The rest of a string literal, after its opening quote. */
  function ParseChars(s: string): (r: Option<(string, string)>)
    ensures r.Some? ==> |r.value.1| < |s|
    decreases |s|
  {
    if s == "" then None
    else if s[0] == '"' then Some(("", s[1..]))
    else if s[0] == '\\' then
      var (c, n) :- Unescape(s);
      var (t, rest) :- ParseChars(s[n..]);
      Some(([c] + t, rest))
    else if s[0] as int < 0x20 then None
    else
      var (t, rest) :- ParseChars(s[1..]);
      Some(([s[0]] + t, rest))
  }

  function ParseWord(s: string, word: string, v: Json): (r: Option<(Json, string)>)
    requires word != ""
    ensures r.Some? ==> |r.value.1| < |s|
  {
    if word <= s then Some((v, s[|word|..])) else None
  }

  function ParseValue(text: string): (r: Option<(Json, string)>)
    ensures r.Some? ==> |r.value.1| < |text|
    decreases |text|, 0
  {
    var s := SkipSpace(text);
    if s == "" then None
    else if s[0] == 'n' then ParseWord(s, "null", Null)
    else if s[0] == 't' then ParseWord(s, "true", Bool(true))
    else if s[0] == 'f' then ParseWord(s, "false", Bool(false))
    else if s[0] == '"' then
      var (t, rest) :- ParseChars(s[1..]);
      Some((Str(t), rest))
    else if s[0] == '[' then
      var inner := SkipSpace(s[1..]);
      if inner != "" && inner[0] == ']' then Some((Arr(INil), inner[1..]))
      else
        var (items, rest) :- ParseItems(inner);
        Some((Arr(items), rest))
    else if s[0] == '{' then
      var inner := SkipSpace(s[1..]);
      if inner != "" && inner[0] == '}' then Some((Obj(FNil), inner[1..]))
      else
        var (fields, rest) :- ParseFields(inner);
        Some((Obj(fields), rest))
    else
      var n := NumToken(s);
      if n > 0 && ValidNumber(s[..n]) then Some((Num(s[..n]), s[n..])) else None
  }

  function ParseItems(s: string): (r: Option<(Items, string)>)
    ensures r.Some? ==> |r.value.1| < |s|
    decreases |s|, 1
  {
    var (head, rest) :- ParseValue(s);
    var after := SkipSpace(rest);
    if after != "" && after[0] == ']' then Some((ICons(head, INil), after[1..]))
    else if after != "" && after[0] == ',' then
      var (tail, end) :- ParseItems(after[1..]);
      Some((ICons(head, tail), end))
    else None
  }

  function ParseFields(text: string): (r: Option<(Fields, string)>)
    ensures r.Some? ==> |r.value.1| < |text|
    decreases |text|, 1
  {
    var s := SkipSpace(text);
    if s == "" || s[0] != '"' then None
    else
      var (key, rest) :- ParseChars(s[1..]);
      var colon := SkipSpace(rest);
      if colon == "" || colon[0] != ':' then None
      else
        var (value, next) :- ParseValue(colon[1..]);
        var after := SkipSpace(next);
        if after != "" && after[0] == '}' then Some((FCons(key, value, FNil), after[1..]))
        else if after != "" && after[0] == ',' then
          var (tail, end) :- ParseFields(after[1..]);
          Some((FCons(key, value, tail), end))
        else None
  }

  /** json.Unmarshal into a generic value: one value with nothing but white space after it. */
  function Unmarshal(s: string): Option<Json> {
    var (v, rest) :- ParseValue(s);
    if SkipSpace(rest) == "" then Some(v) else None
  }

  // ----- the round trip

  lemma HexSplit(n: nat)
    requires n < 0x10000
    ensures n / 0x1000 * 0x1000 + n / 0x100 % 16 * 0x100 + n / 16 % 16 * 16 + n % 16 == n
    ensures n / 0x1000 < 16
  {
    assert n / 0x100 == n / 16 / 16 && n / 0x1000 == n / 16 / 16 / 16;
  }

  lemma UnitAtDigits(a: nat, b: nat, c: nat, d: nat, k: string)
    requires a < 16 && b < 16 && c < 16 && d < 16
    ensures UnitAt(['\\', 'u', HexDigit(a), HexDigit(b), HexDigit(c), HexDigit(d)] + k)
            == Some(a * 0x1000 + b * 0x100 + c * 16 + d)
  {
  }

  lemma UnitAtUEscape(n: nat, k: string)
    requires n < 0x10000
    ensures UnitAt(UEscape(n) + k) == Some(n)
  {
    HexSplit(n);
    UnitAtDigits(n / 0x1000, n / 0x100 % 16, n / 16 % 16, n % 16, k);
  }

  lemma UnescapeEscape(c: char, k: string)
    ensures var e := Escape(c);
            if e[0] == '\\' then Unescape(e + k) == Some((c, |e|)) else e == [c] && c != '"' && c as int >= 0x20
  {
    var n := c as int;
    var e := Escape(c);
    if e[0] == '\\' && |e| == 6 {
      UnitAtUEscape(n, k);
      assert (e + k)[1] == 'u';
    } else if e[0] == '\\' {
      assert (e + k)[1] == e[1];
    }
  }

  lemma {:induction false} ParseCharsEscape(s: string, k: string)
    ensures ParseChars(EscapeTo(s, ['"'] + k)) == Some((s, k))
  {
    if s == "" {
      assert (['"'] + k)[1..] == k;
    } else {
      var e, tail := Escape(s[0]), EscapeTo(s[1..], ['"'] + k);
      UnescapeEscape(s[0], tail);
      ParseCharsEscape(s[1..], k);
      assert (e + tail)[|e|..] == tail;
      assert (e + tail)[0] == e[0];
      assert [s[0]] + s[1..] == s;
    }
  }

  /** What may follow a number: not a character that would continue it. */
  ghost predicate EndsNumber(k: string) {
    k == "" || !NumChar(k[0])
  }

  lemma {:induction false} NumTokenAppend(lit: string, k: string)
    requires NumToken(lit) == |lit| && EndsNumber(k)
    ensures NumToken(lit + k) == |lit|
  {
    if lit == "" {
      assert lit + k == k;
    } else {
      assert (lit + k)[1..] == lit[1..] + k;
      NumTokenAppend(lit[1..], k);
    }
  }

  lemma ValidNumberHead(s: string)
    requires ValidNumber(s)
    ensures s != "" && (s[0] == '-' || IsDigit(s[0]))
  {
  }

  lemma PrintHead(v: Json, w: string, k: string)
    requires WellFormed(v)
    ensures var s := PrintTo(v, w, k); s != "" && !IsJsonSpace(s[0]) && s[0] != ']' && s[0] != '}'
  {
    if v.Num? { ValidNumberHead(v.lit); }
  }

  ghost predicate AllJsonSpace(w: string) {
    forall i :: 0 <= i < |w| ==> IsJsonSpace(w[i])
  }

  /** White space is skipped, up to the first character that is none. */
  lemma {:induction false} SkipPad(w: string, s: string)
    requires AllJsonSpace(w) && (s != "" ==> !IsJsonSpace(s[0]))
    ensures SkipSpace(w + s) == s
  {
    if w == "" {
      assert w + s == s;
    } else {
      assert (w + s)[1..] == w[1..] + s;
      SkipPad(w[1..], s);
    }
  }

  lemma SkipNothing(s: string)
    requires s != "" && !IsJsonSpace(s[0])
    ensures SkipSpace(s) == s
  {
  }

  lemma {:induction false} SkipThrough(w: string, s: string)
    requires AllJsonSpace(w)
    ensures SkipSpace(w + s) == SkipSpace(s)
  {
    if w == "" {
      assert w + s == s;
    } else {
      assert (w + s)[1..] == w[1..] + s;
      SkipThrough(w[1..], s);
    }
  }

  /** Leading white space does not matter to the value that follows. */
  lemma ParsePadded(w: string, s: string)
    requires AllJsonSpace(w)
    ensures ParseValue(w + s).Some? <==> ParseValue(s).Some?
    ensures ParseValue(s).Some? ==> ParseValue(w + s) == ParseValue(s)
  {
    SkipThrough(w, s);
  }

  lemma EndsAfterPad(w: string, k: string)
    requires AllJsonSpace(w) && EndsNumber(k)
    ensures EndsNumber(w + k)
  {
    if w != "" { assert IsJsonSpace(w[0]) && (w + k)[0] == w[0]; } else { assert w + k == k; }
  }

  lemma ParsePrintWord(v: Json, w: string, k: string)
    requires v.Null? || v.Bool?
    ensures ParseValue(PrintTo(v, w, k)) == Some((v, k))
  {
    var word := if v.Null? then "null" else if v.b then "true" else "false";
    var s := PrintTo(v, w, k);
    assert s == word + k && s[0] == word[0];
    SkipNothing(s);
    assert word <= s && s[|word|..] == k;
  }

  lemma ParsePrintNum(lit: string, k: string)
    requires WellFormed(Num(lit)) && EndsNumber(k)
    ensures ParseValue(lit + k) == Some((Num(lit), k))
  {
    var s := lit + k;
    ValidNumberHead(lit);
    NumTokenAppend(lit, k);
    assert s[0] == lit[0] && s[..|lit|] == lit && s[|lit|..] == k;
    SkipNothing(s);
  }

  lemma ParsePrintStr(text: string, k: string)
    ensures ParseValue(QuoteTo(text, k)) == Some((Str(text), k))
  {
    var s := QuoteTo(text, k);
    SkipNothing(s);
    ParseCharsEscape(text, k);
    assert s[1..] == EscapeTo(text, ['"'] + k);
  }

  lemma ParsePrintEmpty(w: string, k: string)
    requires AllJsonSpace(w)
    ensures ParseValue("[" + (w + ("]" + k))) == Some((Arr(INil), k))
    ensures ParseValue("{" + (w + ("}" + k))) == Some((Obj(FNil), k))
  {
    var s, t := "[" + (w + ("]" + k)), "{" + (w + ("}" + k));
    SkipNothing(s);
    SkipNothing(t);
    assert s[1..] == w + ("]" + k) && t[1..] == w + ("}" + k);
    SkipPad(w, "]" + k);
    SkipPad(w, "}" + k);
    assert ("]" + k)[1..] == k && ("}" + k)[1..] == k;
  }

  lemma ParseArr(w: string, inner: string, items: Items, k: string)
    requires AllJsonSpace(w) && inner != "" && !IsJsonSpace(inner[0]) && inner[0] != ']'
    requires ParseItems(inner) == Some((items, k))
    ensures ParseValue("[" + (w + inner)) == Some((Arr(items), k))
  {
    var s := "[" + (w + inner);
    SkipNothing(s);
    assert s[1..] == w + inner;
    SkipPad(w, inner);
  }

  lemma ParseObj(w: string, inner: string, fields: Fields, k: string)
    requires AllJsonSpace(w) && inner != "" && inner[0] == '"'
    requires ParseFields(inner) == Some((fields, k))
    ensures ParseValue("{" + (w + inner)) == Some((Obj(fields), k))
  {
    var s := "{" + (w + inner);
    SkipNothing(s);
    assert s[1..] == w + inner;
    SkipPad(w, inner);
  }

  lemma {:induction false} ParsePrint(v: Json, w: string, k: string)
    requires WellFormed(v) && AllJsonSpace(w) && EndsNumber(k)
    ensures ParseValue(PrintTo(v, w, k)) == Some((v, k))
    decreases v, 0
  {
    match v
    case Null => ParsePrintWord(v, w, k);
    case Bool(b) => ParsePrintWord(v, w, k);
    case Num(lit) => ParsePrintNum(lit, k);
    case Str(text) => ParsePrintStr(text, k);
    case Arr(INil) => ParsePrintEmpty(w, k);
    case Obj(FNil) => ParsePrintEmpty(w, k);
    case Arr(ICons(head, tail)) =>
      var inner := PrintTo(head, w, w + ItemsTo(tail, w, k));
      PrintHead(head, w, w + ItemsTo(tail, w, k));
      ParsePrintItems(head, tail, w, k);
      ParseArr(w, inner, v.items, k);
    case Obj(FCons(key, value, rest)) =>
      ParsePrintFields(key, value, rest, w, k);
      ParseObj(w, QuoteTo(key, w + (":" + (w + PrintTo(value, w, w + FieldsTo(rest, w, k))))), v.fields, k);
  }

  /** One item and what follows it. */
  lemma ItemThen(s: string, head: Json, w: string, after: string)
    requires AllJsonSpace(w) && after != "" && !IsJsonSpace(after[0])
    requires ParseValue(s) == Some((head, w + after))
    ensures after[0] == ']' ==> ParseItems(s) == Some((ICons(head, INil), after[1..]))
    ensures after[0] == ',' && ParseItems(after[1..]).Some? ==>
              ParseItems(s) == Some((ICons(head, ParseItems(after[1..]).value.0), ParseItems(after[1..]).value.1))
  {
    SkipPad(w, after);
  }

  lemma {:induction false} ParsePrintItems(head: Json, tail: Items, w: string, k: string)
    requires WellFormed(head) && WellFormedItems(tail) && AllJsonSpace(w)
    ensures ParseItems(PrintTo(head, w, w + ItemsTo(tail, w, k))) == Some((ICons(head, tail), k))
    decreases ICons(head, tail), 0
  {
    var after := ItemsTo(tail, w, k);
    EndsAfterPad(w, after);
    ParsePrint(head, w, w + after);
    ItemThen(PrintTo(head, w, w + after), head, w, after);
    match tail
    case INil => assert after[1..] == k;
    case ICons(next, more) =>
      var rest := PrintTo(next, w, w + ItemsTo(more, w, k));
      assert after[1..] == w + rest;
      ParsePrintItems(next, more, w, k);
      ItemsPadded(w, rest);
  }

  lemma ItemsPadded(w: string, s: string)
    requires AllJsonSpace(w)
    ensures ParseItems(s).Some? ==> ParseItems(w + s) == ParseItems(s)
  {
    ParsePadded(w, s);
  }

  lemma FieldsPadded(w: string, s: string)
    requires AllJsonSpace(w)
    ensures ParseFields(s).Some? ==> ParseFields(w + s) == ParseFields(s)
  {
    SkipThrough(w, s);
  }

  /** One field and what follows it. */
  lemma FieldThen(s: string, key: string, value: Json, w: string, text: string, after: string)
    requires AllJsonSpace(w) && after != "" && !IsJsonSpace(after[0])
    requires s == QuoteTo(key, w + (":" + (w + text))) && ParseValue(text) == Some((value, w + after))
    ensures after[0] == '}' ==> ParseFields(s) == Some((FCons(key, value, FNil), after[1..]))
    ensures after[0] == ',' && ParseFields(after[1..]).Some? ==>
              ParseFields(s) == Some((FCons(key, value, ParseFields(after[1..]).value.0), ParseFields(after[1..]).value.1))
  {
    var colon := ":" + (w + text);
    SkipNothing(s);
    assert s[1..] == EscapeTo(key, ['"'] + (w + colon));
    ParseCharsEscape(key, w + colon);
    SkipPad(w, colon);
    assert colon[1..] == w + text;
    ParsePadded(w, text);
    SkipPad(w, after);
  }

  lemma {:induction false} ParsePrintFields(key: string, value: Json, rest: Fields, w: string, k: string)
    requires WellFormed(value) && WellFormedFields(rest) && AllJsonSpace(w)
    ensures ParseFields(QuoteTo(key, w + (":" + (w + PrintTo(value, w, w + FieldsTo(rest, w, k))))))
            == Some((FCons(key, value, rest), k))
    decreases FCons(key, value, rest), 0
  {
    var after := FieldsTo(rest, w, k);
    var text := PrintTo(value, w, w + after);
    EndsAfterPad(w, after);
    ParsePrint(value, w, w + after);
    FieldThen(QuoteTo(key, w + (":" + (w + text))), key, value, w, text, after);
    match rest
    case FNil => assert after[1..] == k;
    case FCons(key', value', rest') =>
      var next := QuoteTo(key', w + (":" + (w + PrintTo(value', w, w + FieldsTo(rest', w, k)))));
      assert after[1..] == w + next;
      ParsePrintFields(key', value', rest', w, k);
      FieldsPadded(w, next);
  }

  /** Reading undoes printing on every well-formed value. */
  lemma UnmarshalMarshal(v: Json)
    requires WellFormed(v)
    ensures Unmarshal(Marshal(v)) == Some(v)
  {
    ParsePrint(v, "", "");
  }

  /** A value with white space before it, after it and between its tokens is read just the same, and
      nothing but white space may follow it. */
  lemma UnmarshalSpaced(v: Json, before: string, w: string, after: string)
    requires WellFormed(v) && AllJsonSpace(before) && AllJsonSpace(w) && EndsNumber(after)
    ensures Unmarshal(before + PrintTo(v, w, after)) == Some(v) <==> AllJsonSpace(after)
    ensures Unmarshal(before + PrintTo(v, w, after)).Some? <==> AllJsonSpace(after)
  {
    ParsePrint(v, w, after);
    ParsePadded(before, PrintTo(v, w, after));
    OnlySpace(after);
  }

  lemma {:induction false} OnlySpace(s: string)
    ensures SkipSpace(s) == "" <==> AllJsonSpace(s)
  {
    if s != "" && IsJsonSpace(s[0]) {
      OnlySpace(s[1..]);
      assert s == [s[0]] + s[1..];
      if AllJsonSpace(s[1..]) {
        forall i | 0 <= i < |s| ensures IsJsonSpace(s[i]) {
          if i > 0 { assert s[i] == s[1..][i - 1]; }
        }
      }
      if AllJsonSpace(s) {
        forall i | 0 <= i < |s| - 1 ensures IsJsonSpace(s[1..][i]) { assert s[1..][i] == s[i + 1]; }
      }
    }
  }

  /** How Go writes the characters it escapes. */
  lemma Escapes()
    ensures Escape('"') == "\\\"" && Escape('\\') == "\\\\" && Escape('\n') == "\\n" && Escape('\t') == "\\t"
    ensures Escape('\r') == "\\r" && Escape(0x08 as char) == "\\b" && Escape(0x0c as char) == "\\f"
    ensures Escape('a') == "a" && Escape('/') == "/" && Escape(0x7f as char) == [0x7f as char]
  {
  }

  lemma HexEscapes()
    ensures Escape('<') == "\\u003c" && Escape('>') == "\\u003e" && Escape('&') == "\\u0026"
    ensures Escape(0x01 as char) == "\\u0001" && Escape(0x2028 as char) == "\\u2028" && Escape(0x2029 as char) == "\\u2029"
  {
  }

  /** The numbers it reads: a fraction and a signed exponent, but no leading zero, no plus sign, and
      digits around a point and after an exponent. */
  lemma Numbers()
    ensures ValidNumber("0") && ValidNumber("-0.5e+3")
  {
  }

  lemma NoLeadingZero()
    ensures !ValidNumber("01") && !ValidNumber("+1") && !ValidNumber("-") && !ValidNumber("")
  {
  }

  lemma NoBarePoint()
    ensures !ValidNumber("1.") && !ValidNumber(".5") && !ValidNumber("1e")
  {
  }

  /** A control character may not stand in a string as it is. */
  lemma ControlRefused(c: char, rest: string)
    requires c as int < 0x20
    ensures ParseChars([c] + rest) == None
  {
  }

  lemma ArrayText()
    ensures Marshal(Arr(ICons(Null, ICons(Bool(true), ICons(Bool(false), INil))))) == "[null,true,false]"
    ensures Marshal(Arr(INil)) == "[]" && Marshal(Obj(FNil)) == "{}"
  {
  }

  /** A comma must be followed by an item or a field. */
  lemma NoTrailingComma(s: string)
    ensures ParseItems("]" + s) == None && ParseFields("}" + s) == None
  {
    SkipNothing("]" + s);
    SkipNothing("}" + s);
  }

  /** The escapes it reads beside those: a solidus, upper-case digits, surrogate pairs and, as U+FFFD,
      lone surrogates; no others. */
  lemma Unescapes()
    ensures Unescape("\\/") == Some(('/', 2)) && Unescape("\\u00E9") == Some((0xe9 as char, 6))
    ensures Unescape("\\ud83d") == Some((0xfffd as char, 6)) && Unescape("\\x") == None
  {
  }

  lemma SurrogatePair()
    ensures Unescape("\\ud83d\\ude00") == Some((0x1f600 as char, 12))
  {
  }

  lemma HalfPair()
    ensures Unescape("\\ud83d\\u0041") == Some((0xfffd as char, 6)) && Unescape("\\ude00") == Some((0xfffd as char, 6))
  {
  }

  // ----- the text of a value, without its continuation

  lemma {:induction false} EscapeConcat(s: string, k: string)
    ensures EscapeTo(s, k) == EscapeTo(s, "") + k
  {
    if s != "" {
      EscapeConcat(s[1..], k);
      assert Escape(s[0]) + (EscapeTo(s[1..], "") + k) == Escape(s[0]) + EscapeTo(s[1..], "") + k;
    }
  }

  lemma QuoteConcat(s: string, k: string)
    ensures QuoteTo(s, k) == QuoteTo(s, "") + k
  {
    EscapeConcat(s, ['"'] + k);
    EscapeConcat(s, ['"']);
    assert ['"'] + "" == ['"'];
    QuoteJoin(EscapeTo(s, ""), k);
  }

  lemma QuoteJoin(e: string, k: string)
    ensures ['"'] + (e + (['"'] + k)) == ['"'] + (e + ['"']) + k
  {
  }

  /** One member of an object. */
  function FieldText(key: string, value: Json): string {
    QuoteTo(key, "") + (":" + Marshal(value))
  }

  lemma OneField(key: string, value: Json, after: string)
    requires PrintTo(value, "", after) == Marshal(value) + after
    ensures QuoteTo(key, "" + (":" + ("" + PrintTo(value, "", "" + after)))) == FieldText(key, value) + after
  {
    var m := Marshal(value);
    assert "" + after == after;
    assert "" + (":" + ("" + (m + after))) == ":" + m + after;
    QuoteConcat(key, ":" + m + after);
    assert QuoteTo(key, "") + (":" + m + after) == QuoteTo(key, "") + (":" + m) + after;
  }

  lemma {:induction false} PrintConcat(v: Json, k: string)
    ensures PrintTo(v, "", k) == Marshal(v) + k
    decreases v, 0
  {
    match v
    case Str(text) => QuoteConcat(text, k);
    case Arr(INil) => assert "[" + ("" + ("]" + k)) == ("[" + ("" + ("]" + ""))) + k;
    case Obj(FNil) => assert "{" + ("" + ("}" + k)) == ("{" + ("" + ("}" + ""))) + k;
    case Arr(ICons(head, tail)) =>
      ItemsConcat(tail, k);
      ItemConcat(head, tail, k);
    case Obj(FCons(key, value, rest)) =>
      FieldsConcat(rest, k);
      FieldConcat(key, value, rest, k);
      FieldConcat(key, value, rest, "");
      ObjectConcat(FieldText(key, value), FieldsTo(rest, "", ""), k);
    case _ =>
  }

  lemma ObjectConcat(first: string, rest: string, k: string)
    ensures "{" + ("" + (first + (rest + k))) == "{" + ("" + (first + rest)) + k
  {
  }

  lemma {:induction false} ItemConcat(head: Json, tail: Items, k: string)
    requires ItemsTo(tail, "", k) == ItemsTo(tail, "", "") + k
    ensures PrintTo(head, "", "" + ItemsTo(tail, "", k)) == PrintTo(head, "", "" + ItemsTo(tail, "", "")) + k
    decreases head, 1
  {
    PrintConcat(head, "" + ItemsTo(tail, "", k));
    PrintConcat(head, "" + ItemsTo(tail, "", ""));
  }

  lemma {:induction false} ItemsConcat(items: Items, k: string)
    ensures ItemsTo(items, "", k) == ItemsTo(items, "", "") + k
    decreases items, 2
  {
    if items.ICons? {
      ItemsConcat(items.tail, k);
      ItemConcat(items.head, items.tail, k);
    }
  }

  lemma {:induction false} FieldConcat(key: string, value: Json, rest: Fields, k: string)
    ensures QuoteTo(key, "" + (":" + ("" + PrintTo(value, "", "" + FieldsTo(rest, "", k)))))
            == FieldText(key, value) + FieldsTo(rest, "", k)
    decreases value, 1
  {
    PrintConcat(value, FieldsTo(rest, "", k));
    OneField(key, value, FieldsTo(rest, "", k));
  }

  lemma {:induction false} FieldsConcat(fields: Fields, k: string)
    ensures FieldsTo(fields, "", k) == FieldsTo(fields, "", "") + k
    decreases fields, 2
  {
    match fields
    case FNil =>
    case FCons(key, value, rest) =>
      FieldsConcat(rest, k);
      FieldConcat(key, value, rest, k);
      FieldConcat(key, value, rest, "");
      MoreFields(key, value, rest, k);
      MoreFields(key, value, rest, "");
  }

  /** The fields after the first. */
  lemma MoreFields(key: string, value: Json, rest: Fields, k: string)
    requires QuoteTo(key, "" + (":" + ("" + PrintTo(value, "", "" + FieldsTo(rest, "", k)))))
             == FieldText(key, value) + FieldsTo(rest, "", k)
    ensures FieldsTo(FCons(key, value, rest), "", k) == "," + FieldText(key, value) + FieldsTo(rest, "", k)
  {
    AfterComma(FieldText(key, value), FieldsTo(rest, "", k));
  }

  lemma AfterComma(first: string, rest: string)
    ensures "," + ("" + (first + rest)) == "," + first + rest
  {
  }

  // ----- every value a reader produces can be printed again

  lemma {:induction false} ParsedWellFormed(s: string)
    ensures ParseValue(s).Some? ==> WellFormed(ParseValue(s).value.0)
    decreases |s|, 0
  {
    var t := SkipSpace(s);
    if t == "" {
    } else if t[0] == '[' {
      ParsedItemsWellFormed(SkipSpace(t[1..]));
    } else if t[0] == '{' {
      ParsedFieldsWellFormed(SkipSpace(t[1..]));
    } else {
      TokenIsToken(t);
    }
  }

  lemma {:induction false} TokenIsToken(s: string)
    ensures NumToken(s[..NumToken(s)]) == NumToken(s)
  {
    if s != "" && NumChar(s[0]) {
      TokenIsToken(s[1..]);
      assert s[..NumToken(s)][1..] == s[1..][..NumToken(s[1..])];
    }
  }

  lemma {:induction false} ParsedItemsWellFormed(s: string)
    ensures ParseItems(s).Some? ==> WellFormedItems(ParseItems(s).value.0)
    decreases |s|, 1
  {
    ParsedWellFormed(s);
    if ParseItems(s).Some? {
      var after := SkipSpace(ParseValue(s).value.1);
      if after[0] == ',' {
        ParsedItemsWellFormed(after[1..]);
      }
    }
  }

  lemma {:induction false} ParsedFieldsWellFormed(s: string)
    ensures ParseFields(s).Some? ==> WellFormedFields(ParseFields(s).value.0)
    decreases |s|, 1
  {
    if ParseFields(s).Some? {
      var t := SkipSpace(s);
      var colon := SkipSpace(ParseChars(t[1..]).value.1);
      ParsedWellFormed(colon[1..]);
      var after := SkipSpace(ParseValue(colon[1..]).value.1);
      if after[0] == ',' {
        ParsedFieldsWellFormed(after[1..]);
      }
    }
  }
}
