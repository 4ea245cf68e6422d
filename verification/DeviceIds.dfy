/** The `.pharosid` device identity: its JSON form, its validation, and the PEM wrapping of the
    device's own decryption key. */
module DeviceIds {
  import opened Wrappers
  import opened Text
  import opened Base64
  import opened Json
  import opened JsonRecords
  import opened Utf8

  const FORMAT_TAG: string := "pharos-device"
  const FORMAT_VERSION: int64 := 1
  const KEY_TYPE: string := "X25519 PRIVATE KEY"

  datatype Bundle = Bundle(
    fmt: string,
    v: int64,
    user: string,
    alias: string,
    relayAddr: string,
    relayServerName: string,
    caFingerprint: string,
    fleetCaPem: string,
    deviceCertPem: string,
    deviceKeyPem: string,
    signingPublicKey: Slice,
    encryptionKeyPem: string)

  datatype Missing = RelayAddr | FleetCa | DeviceCert | DeviceKey

  datatype ParseError = NotJson | NotDevice | UnsupportedVersion(v: int64) | MissingField(field: Missing)

  // ----- JSON form

  const KEYS: seq<string> := [
    "fmt", "v", "user", "alias", "relay_addr", "relay_server_name", "ca_fingerprint", "fleet_ca",
    "device_cert", "device_key", "signing_public_key", "encryption_key"]

  function BundleValues(b: Bundle): (r: seq<Option<Json>>)
    ensures |r| == |KEYS|
  {
    [Some(Str(b.fmt)), Some(IntValue(b.v))] + TextValues(Texts(b), PRINTED)
    + [NonEmptySlice(b.signingPublicKey), NonEmptyText(b.encryptionKeyPem)]
  }

  /** The fields from user to device_key, and which of them are printed even when empty. */
  function Texts(b: Bundle): (r: seq<string>)
    ensures |r| == |PRINTED|
  {
    [b.user, b.alias, b.relayAddr, b.relayServerName, b.caFingerprint, b.fleetCaPem, b.deviceCertPem, b.deviceKeyPem]
  }

  const PRINTED: seq<bool> := [false, false, true, true, false, true, true, true]

  function BundleFromValues(r: seq<Option<Json>>): Option<Bundle>
    requires |r| == |KEYS|
  {
    var fmt :- TextField(r[0]);
    var v :- IntField(r[1]);
    var t :- TextFields(r[2..10]);
    var signingPublicKey :- SliceField(r[10]);
    var encryptionKeyPem :- TextField(r[11]);
    Some(Bundle(fmt, v, t[0], t[1], t[2], t[3], t[4], t[5], t[6], t[7], signingPublicKey, encryptionKeyPem))
  }

  /** Marshal fills in the format and version when they are unset. */
  function Defaulted(b: Bundle): Bundle {
    b.(fmt := if b.fmt == "" then FORMAT_TAG else b.fmt, v := if b.v == 0 then FORMAT_VERSION else b.v)
  }

  function Marshal(b: Bundle): Bytes {
    MarshalBytes(Obj(Record(KEYS, BundleValues(Defaulted(b)))))
  }

  function MissingIn(b: Bundle): Option<Missing> {
    if b.relayAddr == "" then Some(RelayAddr)
    else if b.fleetCaPem == "" then Some(FleetCa)
    else if b.deviceCertPem == "" then Some(DeviceCert)
    else if b.deviceKeyPem == "" then Some(DeviceKey)
    else None
  }

  function ReadFields(data: Bytes): Option<Bundle> {
    var doc :- UnmarshalBytes(data);
    var fields :- FieldsOf(doc);
    BundleFromValues(Reads(fields, KEYS))
  }

  function Parse(data: Bytes): Result<Bundle, ParseError> {
    match ReadFields(data)
    case None => Err(NotJson)
    case Some(b) => Check(b)
  }

  function Check(b: Bundle): Result<Bundle, ParseError> {
    if b.fmt != FORMAT_TAG then Err(NotDevice)
    else if b.v != FORMAT_VERSION then Err(UnsupportedVersion(b.v))
    else match MissingIn(b)
      case Some(field) => Err(MissingField(field))
      case None => Ok(b)
  }

  lemma KeysDistinct()
    ensures Distinct(KEYS)
  {
  }

  lemma KeysWords()
    ensures forall i :: 0 <= i < |KEYS| ==> Word(KEYS[i])
  {
  }

  function TextPart(name: string, text: string, always: bool): seq<string> {
    if always || text != "" then [Member(name, QuoteTo(text, ""))] else []
  }

  /** The members of an identity in order: user, alias, fingerprint, signing key and encryption key are
      left out when empty. */
  function BundleParts(b: Bundle): (parts: seq<seq<string>>)
    ensures |parts| == 12
  {
    [[Member("fmt", QuoteTo(b.fmt, ""))], [Member("v", Itoa(b.v))],
     TextPart("user", b.user, false), TextPart("alias", b.alias, false),
     TextPart("relay_addr", b.relayAddr, true), TextPart("relay_server_name", b.relayServerName, true),
     TextPart("ca_fingerprint", b.caFingerprint, false), TextPart("fleet_ca", b.fleetCaPem, true),
     TextPart("device_cert", b.deviceCertPem, true), TextPart("device_key", b.deviceKeyPem, true),
     if Contents(b.signingPublicKey) != [] then [Member("signing_public_key", BytesText(b.signingPublicKey))] else [],
     TextPart("encryption_key", b.encryptionKeyPem, false)]
  }

  lemma {:induction false} TextAt(texts: seq<string>, always: seq<bool>, i: nat)
    requires |texts| == |always| && i < |texts|
    ensures TextValues(texts, always)[i] == if always[i] then Some(Str(texts[i])) else NonEmptyText(texts[i])
  {
    if i > 0 { TextAt(texts[1..], always[1..], i - 1); }
  }

  lemma TextPartIs(name: string, text: string, always: bool)
    ensures MemberIf(name, if always then Some(Str(text)) else NonEmptyText(text)) == TextPart(name, text, always)
  {
  }

  lemma TextPartAt(b: Bundle, i: nat)
    requires 2 <= i < 10
    ensures BundleParts(b)[i] == TextPart(KEYS[i], Texts(b)[i - 2], PRINTED[i - 2])
  {
  }

  lemma TextValueAt(b: Bundle, i: nat)
    requires 2 <= i < 10
    ensures BundleValues(b)[i] == if PRINTED[i - 2] then Some(Str(Texts(b)[i - 2])) else NonEmptyText(Texts(b)[i - 2])
  {
    TextAt(Texts(b), PRINTED, i - 2);
    assert BundleValues(b)[i] == TextValues(Texts(b), PRINTED)[i - 2];
  }

  lemma PartAt(b: Bundle, i: nat)
    requires i < |KEYS|
    ensures BundleParts(b)[i] == MemberIf(KEYS[i], BundleValues(b)[i])
  {
    if 2 <= i < 10 {
      TextPartAt(b, i);
      TextValueAt(b, i);
      TextPartIs(KEYS[i], Texts(b)[i - 2], PRINTED[i - 2]);
    } else {
      EdgeValues(b);
      EdgePart(b, i, BundleValues(b)[i]);
    }
  }

  lemma EdgeValues(b: Bundle)
    ensures BundleValues(b)[0] == Some(Str(b.fmt)) && BundleValues(b)[1] == Some(IntValue(b.v))
    ensures BundleValues(b)[10] == NonEmptySlice(b.signingPublicKey) && BundleValues(b)[11] == NonEmptyText(b.encryptionKeyPem)
  {
    TwelveParts([Some(Str(b.fmt)), Some(IntValue(b.v))], TextValues(Texts(b), PRINTED),
                [NonEmptySlice(b.signingPublicKey), NonEmptyText(b.encryptionKeyPem)], BundleValues(b));
  }

  lemma EdgePart(b: Bundle, i: nat, value: Option<Json>)
    requires i < 2 || 10 <= i < 12
    requires value == if i == 0 then Some(Str(b.fmt)) else if i == 1 then Some(IntValue(b.v))
                      else if i == 10 then NonEmptySlice(b.signingPublicKey) else NonEmptyText(b.encryptionKeyPem)
    ensures BundleParts(b)[i] == MemberIf(KEYS[i], value)
  {
    IntText(b.v);
    SliceText(b.signingPublicKey);
    TextPartIs("encryption_key", b.encryptionKeyPem, false);
  }

  /** The file that an identity is written to, its format and version filled in. */
  lemma BundleText(b: Bundle)
    ensures Marshal(b) == EncodeText(Braced(Flat(BundleParts(Defaulted(b)))))
    ensures Defaulted(b) == b.(fmt := if b.fmt == "" then "pharos-device" else b.fmt, v := if b.v == 0 then 1 else b.v)
  {
    var d := Defaulted(b);
    KeysWords();
    forall i | 0 <= i < |KEYS| ensures BundleParts(d)[i] == MemberIf(KEYS[i], BundleValues(d)[i]) {
      PartAt(d, i);
    }
    PartsText(KEYS, BundleValues(d), BundleParts(d));
  }

  /** A file is accepted exactly when it reads as an identity of format pharos-device and version 1
      with a relay address, a fleet CA, a device certificate and a device key. */
  lemma ParseAccepts(data: Bytes, b: Bundle)
    ensures Parse(data) == Ok(b) <==>
            && ReadFields(data) == Some(b) && b.fmt == "pharos-device" && b.v == 1
            && b.relayAddr != "" && b.fleetCaPem != "" && b.deviceCertPem != "" && b.deviceKeyPem != ""
  {
  }

  /** What is wrong is reported in this order. */
  lemma ParseReports(data: Bytes)
    ensures Parse(data) == Err(NotJson) <==> ReadFields(data).None?
    ensures ReadFields(data).Some? ==>
              var b := ReadFields(data).value; var r := Parse(data);
              && (r == Err(NotDevice) <==> b.fmt != "pharos-device")
              && (b.fmt == "pharos-device" ==>
                    && (r == Err(UnsupportedVersion(b.v)) <==> b.v != 1)
                    && (r == Err(MissingField(RelayAddr)) <==> b.v == 1 && b.relayAddr == "")
                    && (r == Err(MissingField(FleetCa)) <==> b.v == 1 && b.relayAddr != "" && b.fleetCaPem == "")
                    && (r == Err(MissingField(DeviceCert)) <==>
                          b.v == 1 && b.relayAddr != "" && b.fleetCaPem != "" && b.deviceCertPem == "")
                    && (r == Err(MissingField(DeviceKey)) <==>
                          b.v == 1 && b.relayAddr != "" && b.fleetCaPem != "" && b.deviceCertPem != "" && b.deviceKeyPem == ""))
  {
  }

  function ReadBack(b: Bundle): Bundle {
    if Contents(b.signingPublicKey) == [] then b.(signingPublicKey := Nil) else b
  }

  lemma TextFieldRoundTrip(s: string)
    ensures TextField(Some(Str(s))) == Some(s) && TextField(NonEmptyText(s)) == Some(s)
  {
  }

  lemma FromParts(b: Bundle, texts: seq<Option<Json>>, r: seq<Option<Json>>)
    requires |texts| == |PRINTED| && TextFields(texts) == Some(Texts(b)) && |r| == |KEYS|
    requires r[0] == Some(Str(b.fmt)) && r[1] == Some(IntValue(b.v)) && r[2..10] == texts
    requires r[10] == NonEmptySlice(b.signingPublicKey) && r[11] == NonEmptyText(b.encryptionKeyPem)
    ensures BundleFromValues(r) == Some(ReadBack(b))
  {
    TextFieldRoundTrip(b.fmt);
    IntRoundTrip(b.v);
    SliceRoundTrip(b.signingPublicKey);
    TextFieldRoundTrip(b.encryptionKeyPem);
  }

  lemma FromValuesOf(b: Bundle)
    ensures BundleFromValues(BundleValues(b)) == Some(ReadBack(b))
  {
    var texts := TextValues(Texts(b), PRINTED);
    TextsRoundTrip(Texts(b), PRINTED);
    TwelveParts([Some(Str(b.fmt)), Some(IntValue(b.v))], texts,
                [NonEmptySlice(b.signingPublicKey), NonEmptyText(b.encryptionKeyPem)], BundleValues(b));
    FromParts(b, texts, BundleValues(b));
  }

  lemma TwelveParts<T>(head: seq<T>, texts: seq<T>, tail: seq<T>, r: seq<T>)
    requires |head| == 2 && |texts| == 8 && |tail| == 2 && r == head + texts + tail
    ensures r[0] == head[0] && r[1] == head[1] && r[2..10] == texts && r[10] == tail[0] && r[11] == tail[1]
  {
  }

  lemma WellFormedAppend(a: seq<Option<Json>>, b: seq<Option<Json>>)
    requires AllWellFormed(a) && AllWellFormed(b)
    ensures AllWellFormed(a + b)
  {
  }

  lemma ValuesWellFormed(b: Bundle)
    ensures AllWellFormed(BundleValues(b))
  {
    var head, texts := [Some(Str(b.fmt)), Some(IntValue(b.v))], TextValues(Texts(b), PRINTED);
    IntRoundTrip(b.v);
    TextsRoundTrip(Texts(b), PRINTED);
    SliceRoundTrip(b.signingPublicKey);
    WellFormedAppend(head, texts);
    WellFormedAppend(head + texts, [NonEmptySlice(b.signingPublicKey), NonEmptyText(b.encryptionKeyPem)]);
  }

  lemma FieldsRoundTrip(b: Bundle)
    ensures ReadFields(Marshal(b)) == Some(ReadBack(Defaulted(b)))
  {
    KeysDistinct();
    FromValuesOf(Defaulted(b));
    ValuesWellFormed(Defaulted(b));
    RecordRoundTrip(KEYS, BundleValues(Defaulted(b)));
  }

  /** What a marshalled bundle parses to: its defaults filled in, then checked. */
  lemma ParseIsCheck(b: Bundle)
    ensures Parse(Marshal(b)) == Check(ReadBack(Defaulted(b)))
  {
    FieldsRoundTrip(b);
  }

  /** Parse undoes Marshal on exactly the bundles that are complete, carry the current format and
      version, and do not hold an empty (rather than absent) signing key. */
  lemma ParseMarshal(b: Bundle)
    ensures Parse(Marshal(b)) == Ok(b) <==>
            && b.fmt == "pharos-device" && b.v == 1 && b.signingPublicKey != Of([])
            && b.relayAddr != "" && b.fleetCaPem != "" && b.deviceCertPem != "" && b.deviceKeyPem != ""
  {
    ParseIsCheck(b);
    assert ReadBack(Defaulted(b)) == b ==> b.signingPublicKey != Of([]);
  }

  /** A complete bundle whose signing key is empty comes back with that key absent. */
  lemma EmptySigningKeyLost()
    ensures var b := Bundle(FORMAT_TAG, FORMAT_VERSION, "", "", "r:443", "r", "", "ca", "cert", "key", Of([]), "");
            Parse(Marshal(b)) == Ok(b.(signingPublicKey := Nil))
  {
    ParseIsCheck(Bundle(FORMAT_TAG, FORMAT_VERSION, "", "", "r:443", "r", "", "ca", "cert", "key", Of([]), ""));
  }

  /** A bundle assembled without format or version parses as the current format and version. */
  lemma ParseMarshalDefaults(b: Bundle)
    requires (b.fmt == "" || b.fmt == "pharos-device") && (b.v == 0 || b.v == 1) && b.signingPublicKey != Of([])
    requires b.relayAddr != "" && b.fleetCaPem != "" && b.deviceCertPem != "" && b.deviceKeyPem != ""
    ensures Parse(Marshal(b)) == Ok(b.(fmt := "pharos-device", v := 1))
  {
    ParseIsCheck(b);
  }

  // ----- PEM (section 3 of RFC 7468)

  const BEGIN: string := "-----BEGIN "
  const END: string := "-----END "
  const DASHES: string := "-----"
  const LINE: nat := 64

  function WrapLines(s: string): seq<string> {
    if s == "" then [] else if |s| <= LINE then [s] else [s[..LINE]] + WrapLines(s[LINE..])
  }

  function Concat(lines: seq<string>): string {
    if lines == [] then "" else lines[0] + Concat(lines[1..])
  }

  function PemEncode(kind: string, b: Bytes): string {
    Unlines([BEGIN + kind + DASHES] + WrapLines(Encode(b)) + [END + kind + DASHES])
  }

  /** The lines before the first END line, and that line. */
  function UntilEnd(lines: seq<string>): Option<(seq<string>, string)> {
    if lines == [] then None
    else if END <= lines[0] then Some(([], lines[0]))
    else
      var (body, end) :- UntilEnd(lines[1..]);
      Some(([lines[0]] + body, end))
  }

  /** The block of a text that starts with its BEGIN line and has no header lines. */
  function PemDecode(text: string): Option<(string, Bytes)> {
    var lines := Split(text, NEWLINE);
    var first := lines[0];
    if !(BEGIN <= first) || !HasSuffix(first[|BEGIN|..], DASHES) then None
    else
      var kind := TrimSuffix(first[|BEGIN|..], DASHES);
      var (body, end) :- UntilEnd(lines[1..]);
      if end != END + kind + DASHES then None
      else
        var b :- Decode(Concat(body));
        Some((kind, b))
  }

  ghost predicate BodyLines(lines: seq<string>) {
    forall i :: 0 <= i < |lines| ==> lines[i] != "" && lines[i][0] != '-' && NEWLINE !in lines[i]
  }

  lemma {:induction false} WrapLinesConcat(s: string)
    requires forall i :: 0 <= i < |s| ==> s[i] != '-' && s[i] != NEWLINE
    ensures Concat(WrapLines(s)) == s && BodyLines(WrapLines(s))
  {
    if |s| > LINE {
      WrapLinesConcat(s[LINE..]);
      assert s[..LINE] + s[LINE..] == s;
      assert WrapLines(s)[0] == s[..LINE] && WrapLines(s)[1..] == WrapLines(s[LINE..]);
    } else if s != "" {
      assert WrapLines(s)[1..] == [];
    }
  }

  lemma {:induction false} UntilEndBody(body: seq<string>, end: string, rest: seq<string>)
    requires BodyLines(body) && END <= end
    ensures UntilEnd(body + [end] + rest) == Some((body, end))
  {
    if body == [] {
      assert (body + [end] + rest)[0] == end;
    } else {
      var lines := body + [end] + rest;
      assert lines[1..] == body[1..] + [end] + rest;
      assert !(END <= lines[0]) by { assert END[0] == '-'; }
      assert BodyLines(body[1..]) by {
        forall i | 0 <= i < |body[1..]| ensures body[1..][i] == body[i + 1] {}
      }
      UntilEndBody(body[1..], end, rest);
      assert [body[0]] + body[1..] == body;
    }
  }

  lemma PemLines(kind: string, b: Bytes)
    requires NEWLINE !in kind
    ensures BodyLines(WrapLines(Encode(b))) && Concat(WrapLines(Encode(b))) == Encode(b)
    ensures Split(PemEncode(kind, b), NEWLINE)
            == [BEGIN + kind + DASHES] + WrapLines(Encode(b)) + [END + kind + DASHES] + [""]
  {
    var body := WrapLines(Encode(b));
    EncodePlain(b);
    WrapLinesConcat(Encode(b));
    var lines := [BEGIN + kind + DASHES] + body + [END + kind + DASHES];
    assert SingleLines(lines) by {
      forall i | 0 <= i < |lines| ensures NEWLINE !in lines[i] {
        if 0 < i < |lines| - 1 { assert lines[i] == body[i - 1]; }
      }
    }
    SplitSingleLines(lines);
  }

  lemma BeginLine(kind: string)
    ensures var first := BEGIN + kind + DASHES;
            && BEGIN <= first && HasSuffix(first[|BEGIN|..], DASHES) && TrimSuffix(first[|BEGIN|..], DASHES) == kind
  {
    assert (BEGIN + kind + DASHES)[|BEGIN|..] == kind + DASHES;
    SuffixCut(kind, DASHES);
  }

  lemma PemDecodeLines(text: string, kind: string, body: seq<string>, b: Bytes)
    requires Split(text, NEWLINE) == [BEGIN + kind + DASHES] + body + [END + kind + DASHES] + [""]
    requires BodyLines(body) && Decode(Concat(body)) == Some(b)
    ensures PemDecode(text) == Some((kind, b))
  {
    var lines, end := Split(text, NEWLINE), END + kind + DASHES;
    BeginLine(kind);
    assert lines[0] == BEGIN + kind + DASHES;
    assert lines[1..] == body + [end] + [""];
    assert END <= end;
    UntilEndBody(body, end, [""]);
  }

  /** Any bytes survive PEM wrapping. */
  lemma PemRoundTrip(kind: string, b: Bytes)
    requires NEWLINE !in kind
    ensures PemDecode(PemEncode(kind, b)) == Some((kind, b))
  {
    PemLines(kind, b);
    DecodeEncode(b);
    PemDecodeLines(PemEncode(kind, b), kind, WrapLines(Encode(b)), b);
  }

  lemma {:induction false} UntilEndFinds(lines: seq<string>)
    ensures UntilEnd(lines).Some? ==>
              var (body, end) := UntilEnd(lines).value;
              END <= end && |body| < |lines| && lines == body + [end] + lines[|body| + 1..]
  {
    if lines != [] && !(END <= lines[0]) && UntilEnd(lines).Some? {
      UntilEndFinds(lines[1..]);
      var (body, end) := UntilEnd(lines[1..]).value;
      assert lines == [lines[0]] + lines[1..];
      assert lines == ([lines[0]] + body) + [end] + lines[1..][|body| + 1..];
    }
  }

  /** What is read as a block starts with a line that names its type and goes on to a line that ends
      the same type, and the lines between them are its base64 text. */
  lemma PemAccepts(text: string, kind: string, b: Bytes)
    requires PemDecode(text) == Some((kind, b))
    ensures exists body, rest ::
              Split(text, '\n') == ["-----BEGIN " + kind + "-----"] + body + ["-----END " + kind + "-----"] + rest
              && Decode(Concat(body)) == Some(b)
  {
    var lines := Split(text, NEWLINE);
    var first := lines[0];
    UntilEndFinds(lines[1..]);
    var (body, end) := UntilEnd(lines[1..]).value;
    assert first == BEGIN + first[|BEGIN|..] && first[|BEGIN|..] == kind + DASHES;
    assert first == "-----BEGIN " + kind + "-----";
    var rest := lines[1..][|body| + 1..];
    assert lines == [first] + lines[1..];
    assert lines == [first] + body + [end] + rest;
  }

  lemma PemNotEmpty(kind: string, b: Bytes)
    ensures PemEncode(kind, b) != ""
  {
  }

  // ----- the device's own decryption key

  datatype KeyError = Malformed | WrongSize(got: nat)

  /** EncryptionPrivateKey: nil when the bundle carries no key, an error when it carries a bad one. */
  function EncryptionPrivateKey(b: Bundle): (r: Result<Option<Bytes>, KeyError>)
    ensures r.Ok? && r.value.Some? ==> |r.value.value| == KEY_SIZE
  {
    if b.encryptionKeyPem == "" then Ok(None)
    else match PemDecode(b.encryptionKeyPem)
      case None => Err(Malformed)
      case Some((kind, key)) =>
        if kind != KEY_TYPE then Err(Malformed)
        else if |key| != KEY_SIZE then Err(WrongSize(|key|))
        else Ok(Some(key))
  }

  function EncodeEncryptionKey(key: Bytes): Result<string, KeyError> {
    if |key| != KEY_SIZE then Err(WrongSize(|key|)) else Ok(PemEncode(KEY_TYPE, key))
  }

  lemma KeyFromPem(b: Bundle, key: Bytes)
    requires |key| == KEY_SIZE && b.encryptionKeyPem == PemEncode(KEY_TYPE, key)
    ensures EncryptionPrivateKey(b) == Ok(Some(key))
  {
    PemRoundTrip(KEY_TYPE, key);
    PemNotEmpty(KEY_TYPE, key);
  }

  /** A bundle has a key of its own exactly when its PEM text is a block of the key's type with 32 bytes;
      it has none exactly when that text is empty; anything else is an error. */
  lemma OwnKeyExactly(b: Bundle, key: Bytes)
    ensures EncryptionPrivateKey(b) == Ok(Some(key)) <==>
            b.encryptionKeyPem != "" && PemDecode(b.encryptionKeyPem) == Some(("X25519 PRIVATE KEY", key)) && |key| == 32
    ensures EncryptionPrivateKey(b) == Ok(None) <==> b.encryptionKeyPem == ""
    ensures forall n :: EncryptionPrivateKey(b) == Err(WrongSize(n)) <==>
              && b.encryptionKeyPem != "" && PemDecode(b.encryptionKeyPem).Some? && n != 32
              && PemDecode(b.encryptionKeyPem).value.0 == "X25519 PRIVATE KEY" && |PemDecode(b.encryptionKeyPem).value.1| == n
  {
  }

  lemma OneLine(kind: string, b: Bytes)
    requires 0 < |Encode(b)| <= 64
    ensures PemEncode(kind, b) == "-----BEGIN " + kind + "-----" + "\n" + (Encode(b) + "\n" + ("-----END " + kind + "-----" + "\n"))
  {
    var first, body, last := BEGIN + kind + DASHES, Encode(b), END + kind + DASHES;
    assert WrapLines(body) == [body];
    var lines := [first] + [body] + [last];
    assert lines[1..] == [body] + [last] && ([body] + [last])[1..] == [last] && [last][1..] == [];
    assert Unlines([last]) == last + "\n" + Unlines([]);
    assert Unlines([body] + [last]) == body + "\n" + Unlines([last]);
  }

  /** The text of a device key, and that nothing but 32 bytes has one. */
  lemma KeyText(key: Bytes)
    ensures EncodeEncryptionKey(key).Ok? <==> |key| == 32
    ensures |key| == 32 ==>
              EncodeEncryptionKey(key).value ==
              "-----BEGIN " + KEY_TYPE + "-----" + "\n" + (Encode(key) + "\n" + ("-----END " + KEY_TYPE + "-----" + "\n"))
    ensures |key| != 32 ==> EncodeEncryptionKey(key) == Err(WrongSize(|key|))
  {
    if |key| == 32 {
      EncodeLength(key);
      OneLine(KEY_TYPE, key);
    }
  }

  lemma EncodeLength(b: Bytes)
    requires |b| == 32
    ensures |Encode(b)| == 44
  {
    assert |ToChars(ToSextets(b))| == |ToSextets(b)| == 43;
  }

  /** Longer bodies are broken into lines of 64 columns, the last one shorter or full. */
  lemma {:induction false} LinesOf64(s: string, i: nat)
    requires i < |WrapLines(s)|
    ensures if i + 1 < |WrapLines(s)| then |WrapLines(s)[i]| == 64 else 0 < |WrapLines(s)[i]| <= 64
  {
    if |s| > LINE && i > 0 {
      LinesOf64(s[LINE..], i - 1);
    } else if |s| > LINE {
      assert WrapLines(s[LINE..]) != [];
    }
  }

  /** The bundle with this key as its own decryption key. */
  function Carrying(b: Bundle, key: Bytes): Bundle
    requires |key| == KEY_SIZE
  {
    b.(encryptionKeyPem := EncodeEncryptionKey(key).value)
  }

  /** A 32-byte device key survives PEM wrapping, JSON marshalling, parsing and unwrapping. */
  lemma DeviceKeyRoundTrip(b: Bundle, key: Bytes)
    requires |key| == KEY_SIZE
    requires b.fmt == "pharos-device" && b.v == 1 && b.signingPublicKey != Of([])
    requires b.relayAddr != "" && b.fleetCaPem != "" && b.deviceCertPem != "" && b.deviceKeyPem != ""
    ensures Parse(Marshal(Carrying(b, key))) == Ok(Carrying(b, key))
    ensures EncryptionPrivateKey(Carrying(b, key)) == Ok(Some(key))
  {
    var c := Carrying(b, key);
    assert Parse(Marshal(c)) == Ok(c) by {
      ParseMarshal(c);
    }
    assert EncryptionPrivateKey(c) == Ok(Some(key)) by {
      KeyFromPem(c, key);
    }
  }
}
