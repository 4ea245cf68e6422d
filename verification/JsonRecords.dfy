/** Structs as encoding/json writes and reads them: a record is a list of keys with one optional
    value each (None is a field left out by omitempty), read back by key. */
module JsonRecords {
  import opened Wrappers
  import opened Text
  import opened Base64
  import opened Json
  import opened Utf8

  /** A Go byte slice: nil is not the empty slice. */
  datatype Slice = Nil | Of(bytes: Bytes)

  const UINT32_MAX: nat := 0xffff_ffff

  type int64 = i: int | -INT64_MAX - 1 <= i <= INT64_MAX
  type uint32 = i: int | 0 <= i <= UINT32_MAX

  function Contents(s: Slice): Bytes {
    match s
    case Nil => []
    case Of(b) => b
  }

  // ----- whole documents, as bytes

  function MarshalBytes(v: Json): Bytes {
    EncodeText(Marshal(v))
  }

  function UnmarshalBytes(b: Bytes): Option<Json> {
    var s :- DecodeText(b);
    Unmarshal(s)
  }

  lemma BytesRoundTrip(v: Json)
    requires WellFormed(v)
    ensures UnmarshalBytes(MarshalBytes(v)) == Some(v)
  {
    DecodeTextEncode(Marshal(v));
    UnmarshalMarshal(v);
  }

  /** What was read can be printed again. */
  lemma ReadWellFormed(b: Bytes)
    ensures UnmarshalBytes(b).Some? ==> WellFormed(UnmarshalBytes(b).value)
  {
    if UnmarshalBytes(b).Some? {
      ParsedWellFormed(DecodeText(b).value);
    }
  }

  lemma EmptyNotJson()
    ensures UnmarshalBytes([]) == None
  {
    assert DecodeText([]) == Some("");
  }

  // ----- records

  ghost predicate Distinct(keys: seq<string>) {
    forall i, j :: 0 <= i < j < |keys| ==> keys[i] != keys[j]
  }

  function Record(keys: seq<string>, values: seq<Option<Json>>): Fields
    requires |keys| == |values|
  {
    if keys == [] then FNil
    else
      var rest := Record(keys[1..], values[1..]);
      match values[0]
      case Some(v) => FCons(keys[0], v, rest)
      case None => rest
  }

  /** The last value given for a key, as a decoder that assigns fields in order leaves it. */
  function Get(fields: Fields, key: string): Option<Json> {
    match fields
    case FNil => None
    case FCons(k, v, rest) =>
      match Get(rest, key)
      case Some(x) => Some(x)
      case None => if k == key then Some(v) else None
  }

  /** What each of a struct's fields is read from, in the order of its keys. */
  function Reads(fields: Fields, keys: seq<string>): (r: seq<Option<Json>>)
    ensures |r| == |keys|
  {
    if keys == [] then [] else [Get(fields, keys[0])] + Reads(fields, keys[1..])
  }

  /** The fields a struct is read from; a null document leaves the struct at its zero value. */
  function FieldsOf(v: Json): Option<Fields> {
    match v
    case Obj(fields) => Some(fields)
    case Null => Some(FNil)
    case _ => None
  }

  lemma {:induction false} GetAbsent(keys: seq<string>, values: seq<Option<Json>>, key: string)
    requires |keys| == |values| && key !in keys
    ensures Get(Record(keys, values), key) == None
  {
    if keys != [] {
      GetAbsent(keys[1..], values[1..], key);
    }
  }

  lemma {:induction false} ReadsSkip(key: string, v: Json, fields: Fields, keys: seq<string>)
    requires key !in keys
    ensures Reads(FCons(key, v, fields), keys) == Reads(fields, keys)
  {
    if keys != [] {
      ReadsSkip(key, v, fields, keys[1..]);
    }
  }

  lemma {:induction false} ReadsRecord(keys: seq<string>, values: seq<Option<Json>>)
    requires |keys| == |values| && Distinct(keys)
    ensures Reads(Record(keys, values), keys) == values
  {
    if keys != [] {
      var rest := Record(keys[1..], values[1..]);
      assert keys[0] !in keys[1..];
      GetAbsent(keys[1..], values[1..], keys[0]);
      ReadsRecord(keys[1..], values[1..]);
      if values[0].Some? {
        ReadsSkip(keys[0], values[0].value, rest, keys[1..]);
      }
      assert [values[0]] + values[1..] == values;
    }
  }

  lemma {:induction false} RecordWellFormed(keys: seq<string>, values: seq<Option<Json>>)
    requires |keys| == |values|
    requires AllWellFormed(values)
    ensures WellFormedFields(Record(keys, values))
  {
    if keys != [] {
      RecordWellFormed(keys[1..], values[1..]);
    }
  }

  /** A printed record reads back with exactly the values it was built from. */
  lemma RecordRoundTrip(keys: seq<string>, values: seq<Option<Json>>)
    requires |keys| == |values| && Distinct(keys)
    requires AllWellFormed(values)
    ensures UnmarshalBytes(MarshalBytes(Obj(Record(keys, values)))) == Some(Obj(Record(keys, values)))
    ensures Reads(Record(keys, values), keys) == values
  {
    RecordWellFormed(keys, values);
    BytesRoundTrip(Obj(Record(keys, values)));
    ReadsRecord(keys, values);
  }

  // ----- the text of a record

  /** Text that is written between quotes as it is. */
  ghost predicate Plain(s: string) {
    forall i :: 0 <= i < |s| ==> Escape(s[i]) == [s[i]]
  }

  function Quoted(s: string): string {
    "\"" + s + "\""
  }

  lemma {:induction false} EscapePlain(s: string)
    requires Plain(s)
    ensures EscapeTo(s, ['"']) == s + "\""
  {
    if s == "" {
      assert "" + "\"" == ['"'];
    } else {
      EscapePlain(s[1..]);
      assert s == [s[0]] + s[1..];
    }
  }

  lemma QuotePlain(s: string)
    requires Plain(s)
    ensures Marshal(Str(s)) == Quoted(s) && QuoteTo(s, "") == Quoted(s)
  {
    EscapePlain(s);
    assert ['"'] + "" == ['"'];
    assert QuoteTo(s, "") == ['"'] + (s + "\"");
  }

  /** One member of an object, from its name and the text of its value. */
  function Member(name: string, text: string): string {
    Quoted(name) + ":" + text
  }

  function Braced(members: seq<string>): string {
    "{" + Join(members, ',') + "}"
  }

  function Members(keys: seq<string>, values: seq<Option<Json>>): seq<string>
    requires |keys| == |values|
  {
    if keys == [] then []
    else (if values[0].Some? then [Member(keys[0], Marshal(values[0].value))] else []) + Members(keys[1..], values[1..])
  }

  function MembersOf(fields: Fields): seq<string> {
    match fields
    case FNil => []
    case FCons(key, value, rest) => [FieldText(key, value)] + MembersOf(rest)
  }

  lemma JoinFirst(first: string, rest: seq<string>)
    ensures Join([first] + rest, ',') == if rest == [] then first else first + "," + Join(rest, ',')
  {
    assert ([first] + rest)[1..] == rest;
  }

  function RestOf(members: seq<string>): string {
    if members == [] then "}" else "," + Join(members, ',') + "}"
  }

  lemma RestStep(first: string, rest: seq<string>)
    ensures first + RestOf(rest) == Join([first] + rest, ',') + "}"
    ensures "," + first + RestOf(rest) == RestOf([first] + rest)
  {
    JoinFirst(first, rest);
    if rest != [] {
      assert first + ("," + Join(rest, ',') + "}") == first + "," + Join(rest, ',') + "}";
    }
  }

  lemma {:induction false} RestText(fields: Fields)
    ensures FieldsTo(fields, "", "") == RestOf(MembersOf(fields))
  {
    match fields
    case FNil =>
    case FCons(key, value, rest) =>
      RestText(rest);
      FieldConcat(key, value, rest, "");
      MoreFields(key, value, rest, "");
      RestStep(FieldText(key, value), MembersOf(rest));
  }

  lemma ObjectText(fields: Fields)
    ensures Marshal(Obj(fields)) == Braced(MembersOf(fields))
  {
    match fields
    case FNil => assert "{" + ("" + ("}" + "")) == "{" + "" + "}";
    case FCons(key, value, rest) =>
      RestText(rest);
      FieldConcat(key, value, rest, "");
      RestStep(FieldText(key, value), MembersOf(rest));
      FirstMember(FieldText(key, value) + FieldsTo(rest, "", ""), Join(MembersOf(fields), ','));
  }

  lemma FirstMember(text: string, joined: string)
    requires text == joined + "}"
    ensures "{" + ("" + text) == "{" + joined + "}"
  {
  }

  lemma {:induction false} RecordMembers(keys: seq<string>, values: seq<Option<Json>>)
    requires |keys| == |values| && forall i :: 0 <= i < |keys| ==> Plain(keys[i])
    ensures MembersOf(Record(keys, values)) == Members(keys, values)
  {
    if keys != [] {
      RecordMembers(keys[1..], values[1..]);
      if values[0].Some? { PlainField(keys[0], values[0].value); }
    }
  }

  lemma PlainField(key: string, value: Json)
    requires Plain(key)
    ensures FieldText(key, value) == Member(key, Marshal(value))
  {
    QuotePlain(key);
    assert Quoted(key) + (":" + Marshal(value)) == Quoted(key) + ":" + Marshal(value);
  }

  /** A record is printed as its present members in order, each under its name. */
  lemma RecordText(keys: seq<string>, values: seq<Option<Json>>)
    requires |keys| == |values| && forall i :: 0 <= i < |keys| ==> Plain(keys[i])
    ensures Marshal(Obj(Record(keys, values))) == Braced(Members(keys, values))
  {
    RecordMembers(keys, values);
    ObjectText(Record(keys, values));
  }

  /** The member of an optional value. */
  function MemberIf(name: string, v: Option<Json>): seq<string> {
    if v.Some? then [Member(name, Marshal(v.value))] else []
  }

  /** Parts that hold no member or one, in one list. */
  function Flat(parts: seq<seq<string>>): seq<string> {
    if parts == [] then [] else parts[0] + Flat(parts[1..])
  }

  lemma {:induction false} FlatMembers(keys: seq<string>, values: seq<Option<Json>>, parts: seq<seq<string>>)
    requires |keys| == |values| == |parts|
    requires forall i :: 0 <= i < |keys| ==> parts[i] == MemberIf(keys[i], values[i])
    ensures Members(keys, values) == Flat(parts)
  {
    if keys != [] {
      FlatMembers(keys[1..], values[1..], parts[1..]);
    }
  }

  /** Lower-case words are written as they are. */
  ghost predicate Word(s: string) {
    forall i :: 0 <= i < |s| ==> 'a' <= s[i] <= 'z' || s[i] == '_' || s[i] == '-'
  }

  lemma WordPlain(s: string)
    requires Word(s)
    ensures Plain(s)
  {
  }

  lemma WordsPlain(keys: seq<string>)
    requires forall i :: 0 <= i < |keys| ==> Word(keys[i])
    ensures forall i :: 0 <= i < |keys| ==> Plain(keys[i])
  {
    forall i | 0 <= i < |keys| ensures Plain(keys[i]) { WordPlain(keys[i]); }
  }

  /** The text of a record of words, from the parts that its values print. */
  lemma PartsText(keys: seq<string>, values: seq<Option<Json>>, parts: seq<seq<string>>)
    requires |keys| == |values| == |parts|
    requires forall i :: 0 <= i < |keys| ==> Word(keys[i]) && parts[i] == MemberIf(keys[i], values[i])
    ensures Marshal(Obj(Record(keys, values))) == Braced(Flat(parts))
  {
    WordsPlain(keys);
    RecordText(keys, values);
    FlatMembers(keys, values, parts);
  }

  lemma {:induction false} ReadsAt(fields: Fields, keys: seq<string>, i: nat)
    requires i < |keys|
    ensures Reads(fields, keys)[i] == Get(fields, keys[i])
  {
    if i > 0 { ReadsAt(fields, keys[1..], i - 1); }
  }

  // ----- field values

  function IntValue(i: int64): Json {
    Num(Itoa(i))
  }

  function SliceValue(s: Slice): Json {
    match s
    case Nil => Null
    case Of(b) => Str(Encode(b))
  }

  /** omitempty: an empty string or slice is left out. */
  function NonEmptyText(s: string): Option<Json> {
    if s == "" then None else Some(Str(s))
  }

  function NonEmptySlice(s: Slice): Option<Json> {
    if Contents(s) == [] then None else Some(SliceValue(s))
  }

  /** Readers: an absent or null field keeps the zero value, a value of another type is an error. */
  function IntField(v: Option<Json>): Option<int64> {
    match v
    case None => Some(0)
    case Some(Null) => Some(0)
    case Some(Num(lit)) => ParseInt64(lit)
    case _ => None
  }

  function UintField(v: Option<Json>, max: nat): (r: Option<nat>)
    ensures r.Some? ==> r.value <= max
  {
    match v
    case None => Some(0)
    case Some(Null) => Some(0)
    case Some(Num(lit)) =>
      var n :- DecValue(lit);
      if lit != "" && n <= max then Some(n) else None
    case _ => None
  }

  function TextField(v: Option<Json>): Option<string> {
    match v
    case None => Some("")
    case Some(Null) => Some("")
    case Some(Str(s)) => Some(s)
    case _ => None
  }

  /** The bytes of a JSON array, which Go reads into a byte slice element by element. */
  function ArrayBytes(items: Items): Option<Bytes> {
    match items
    case INil => Some([])
    case ICons(head, tail) =>
      var b :- UintField(Some(head), 255);
      var rest :- ArrayBytes(tail);
      Some([b] + rest)
  }

  function SliceField(v: Option<Json>): Option<Slice> {
    match v
    case None => Some(Nil)
    case Some(Null) => Some(Nil)
    case Some(Str(s)) =>
      var b :- Decode(s);
      Some(Of(b))
    case Some(Arr(items)) =>
      var b :- ArrayBytes(items);
      Some(Of(b))
    case _ => None
  }

  /** A byte slice is null when it is nil, and else its base64 text. */
  function BytesText(s: Slice): string {
    if s.Nil? then "null" else Quoted(Encode(s.bytes))
  }

  lemma EncodedPlain(b: Bytes)
    ensures Plain(Encode(b))
  {
    var q := ToSextets(b);
    ToCharsAt(q);
    forall i | 0 <= i < |Encode(b)| ensures Escape(Encode(b)[i]) == [Encode(b)[i]] {
      assert i < |q| ==> Encode(b)[i] == CharOf(q[i]);
      assert i >= |q| ==> Encode(b)[i] == PAD;
    }
  }

  lemma SliceText(s: Slice)
    ensures Marshal(SliceValue(s)) == BytesText(s)
  {
    if s.Of? {
      EncodedPlain(s.bytes);
      QuotePlain(Encode(s.bytes));
    }
  }

  /** The value of a slice field, by its place in a run of them. */
  lemma {:induction false} SliceValueAt(slices: seq<Slice>, i: nat)
    requires i < |slices|
    ensures SliceValues(slices)[i] == Some(SliceValue(slices[i]))
  {
    if i > 0 { SliceValueAt(slices[1..], i - 1); }
  }

  lemma NullText()
    ensures Marshal(Null) == "null"
  {
    assert "null" + "" == "null";
  }

  lemma IntText(i: int64)
    ensures Marshal(IntValue(i)) == Itoa(i)
  {
  }

  /** What the readers accept: absent and null give the zero value, a value of the field's type is
      read, anything else is an error. */
  lemma NumbersRead(v: Option<Json>, i: int64, n: nat, max: nat)
    ensures IntField(v) == Some(i) <==>
            (i == 0 && (v.None? || v == Some(Null))) || (v.Some? && v.value.Num? && ParseInt64(v.value.lit) == Some(i))
    ensures UintField(v, max) == Some(n) <==>
            (n == 0 && (v.None? || v == Some(Null)))
            || (v.Some? && v.value.Num? && v.value.lit != "" && DecValue(v.value.lit) == Some(n) && n <= max)
  {
  }

  lemma TextsRead(v: Option<Json>, s: string, b: Bytes)
    ensures TextField(v) == Some(s) <==> (s == "" && (v.None? || v == Some(Null))) || v == Some(Str(s))
    ensures SliceField(v) == Some(Nil) <==> v.None? || v == Some(Null)
    ensures SliceField(v) == Some(Of(b)) <==>
            v.Some? && ((v.value.Str? && Decode(v.value.text) == Some(b)) || (v.value.Arr? && ArrayBytes(v.value.items) == Some(b)))
  {
  }

  /** An array gives bytes up to 255, and a struct is read from an object, or from null as empty. */
  lemma ArraysAndNull(v: Json)
    ensures ArrayBytes(ICons(Num("255"), ICons(Null, INil))) == Some([255, 0])
    ensures ArrayBytes(ICons(Num("256"), INil)) == None && ArrayBytes(ICons(Str("1"), INil)) == None
    ensures FieldsOf(v) == if v.Obj? then Some(v.fields) else if v.Null? then Some(FNil) else None
  {
    assert DecValue("2") == Some(2) && DecValue("25") == Some(25);
    assert DecValue("255") == Some(255) && DecValue("256") == Some(256);
    assert [0 as byte] + [] == [0];
    assert [255 as byte] + [0] == [255, 0];
  }

  /** A repeated key reads as its last value. */
  lemma LastWins(key: string, v: Json, w: Json, rest: Fields)
    requires Get(rest, key).None?
    ensures Get(FCons(key, v, FCons(key, w, rest)), key) == Some(w)
  {
  }

  lemma {:induction false} DigitsNumber(s: string)
    requires AllDigits(s)
    ensures LeadingDigits(s) == |s| && NumToken(s) == |s|
  {
    if s != "" {
      DigitsNumber(s[1..]);
    }
  }

  lemma IntWellFormed(i: int64)
    ensures WellFormed(IntValue(i))
  {
    if i < 0 {
      var n: int := i;
      DigitsNumber(Dec(-n));
      assert Itoa(i)[1..] == Dec(-n);
    } else {
      DigitsNumber(Dec(i));
    }
  }

  lemma IntRoundTrip(i: int64)
    ensures WellFormed(IntValue(i)) && IntField(Some(IntValue(i))) == Some(i)
    ensures i >= 0 ==> UintField(Some(IntValue(i)), i) == Some(i)
  {
    IntWellFormed(i);
    ParseInt64Itoa(i);
    if i >= 0 {
      DecValueDec(i);
    }
  }

  lemma SliceRoundTrip(s: Slice)
    ensures WellFormed(SliceValue(s)) && SliceField(Some(SliceValue(s))) == Some(s)
    ensures SliceField(NonEmptySlice(s)) == Some(if Contents(s) == [] then Nil else s)
  {
    if s.Of? {
      DecodeEncode(s.bytes);
    }
  }

  // ----- runs of byte-slice fields

  function SliceValues(slices: seq<Slice>): (r: seq<Option<Json>>)
    ensures |r| == |slices|
  {
    if slices == [] then [] else [Some(SliceValue(slices[0]))] + SliceValues(slices[1..])
  }

  function SliceFields(values: seq<Option<Json>>): (r: Option<seq<Slice>>)
    ensures r.Some? ==> |r.value| == |values|
  {
    if values == [] then Some([])
    else
      var s :- SliceField(values[0]);
      var rest :- SliceFields(values[1..]);
      Some([s] + rest)
  }

  ghost predicate AllWellFormed(values: seq<Option<Json>>) {
    forall i :: 0 <= i < |values| && values[i].Some? ==> WellFormed(values[i].value)
  }

  lemma {:induction false} SlicesRoundTrip(slices: seq<Slice>)
    ensures SliceFields(SliceValues(slices)) == Some(slices) && AllWellFormed(SliceValues(slices))
  {
    if slices != [] {
      SliceRoundTrip(slices[0]);
      SlicesRoundTrip(slices[1..]);
      assert SliceValues(slices)[1..] == SliceValues(slices[1..]);
      assert [slices[0]] + slices[1..] == slices;
    }
  }

  // ----- runs of text fields, each either always printed or printed when not empty

  function TextValues(texts: seq<string>, always: seq<bool>): (r: seq<Option<Json>>)
    requires |texts| == |always|
    ensures |r| == |texts|
  {
    if texts == [] then []
    else [if always[0] then Some(Str(texts[0])) else NonEmptyText(texts[0])] + TextValues(texts[1..], always[1..])
  }

  function TextFields(values: seq<Option<Json>>): (r: Option<seq<string>>)
    ensures r.Some? ==> |r.value| == |values|
  {
    if values == [] then Some([])
    else
      var s :- TextField(values[0]);
      var rest :- TextFields(values[1..]);
      Some([s] + rest)
  }

  lemma {:induction false} TextsRoundTrip(texts: seq<string>, always: seq<bool>)
    requires |texts| == |always|
    ensures TextFields(TextValues(texts, always)) == Some(texts) && AllWellFormed(TextValues(texts, always))
  {
    if texts != [] {
      TextsRoundTrip(texts[1..], always[1..]);
      assert TextValues(texts, always)[1..] == TextValues(texts[1..], always[1..]);
      assert [texts[0]] + texts[1..] == texts;
    }
  }
}
