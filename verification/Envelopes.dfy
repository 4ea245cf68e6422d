/** The `.pharos` envelope: its authenticated header, its header check, wrapping a plaintext
    profile, and opening a file in each of its encryption modes. */
module Envelopes {
  import opened Wrappers
  import opened Base64
  import opened Json
  import opened JsonRecords
  import opened SealedBundles
  import opened Crypto
  import opened Text
  import opened Utf8

  const FORMAT_TAG: string := "pharos-profile"
  const FORMAT_VERSION: int64 := 1
  const ENC_NONE: string := "none"
  const ENC_PASSWORD: string := "password"
  const ENC_ACCOUNT: string := "account"
  const UINT8_MAX: nat := 0xff

  type uint8 = i: int | 0 <= i <= UINT8_MAX

  datatype Kdf = Kdf(algo: string, time: uint32, memory: uint32, threads: uint8, salt: Slice)

  /** The payload is kept as the JSON value it denotes; None is a nil payload, which prints as null. */
  datatype Envelope = Envelope(fmt: string, v: int64, enc: string, kdf: Option<Kdf>, nonce: Slice, payload: Option<Json>)

  // ----- writing and reading

  const KDF_KEYS: seq<string> := ["algo", "t", "m", "p", "salt"]
  const KEYS: seq<string> := ["fmt", "v", "enc", "kdf", "nonce", "payload"]

  function KdfValues(k: Kdf): (r: seq<Option<Json>>)
    ensures |r| == |KDF_KEYS|
  {
    [Some(Str(k.algo)), Some(IntValue(k.time)), Some(IntValue(k.memory)), Some(IntValue(k.threads)), Some(SliceValue(k.salt))]
  }

  function KdfFromValues(r: seq<Option<Json>>): Option<Kdf>
    requires |r| == |KDF_KEYS|
  {
    var algo :- TextField(r[0]);
    var t :- UintField(r[1], UINT32_MAX);
    var m :- UintField(r[2], UINT32_MAX);
    var p :- UintField(r[3], UINT8_MAX);
    var salt :- SliceField(r[4]);
    Some(Kdf(algo, t, m, p, salt))
  }

  function KdfValue(k: Option<Kdf>): Option<Json> {
    match k
    case None => None
    case Some(kdf) => Some(Obj(Record(KDF_KEYS, KdfValues(kdf))))
  }

  /** A pointer field: absent or null is nil. */
  function KdfField(v: Option<Json>): Option<Option<Kdf>> {
    match v
    case None => Some(None)
    case Some(Null) => Some(None)
    case Some(Obj(fields)) =>
      var kdf :- KdfFromValues(Reads(fields, KDF_KEYS));
      Some(Some(kdf))
    case _ => None
  }

  function EnvelopeValues(e: Envelope): (r: seq<Option<Json>>)
    ensures |r| == |KEYS|
  {
    [Some(Str(e.fmt)), Some(IntValue(e.v)), Some(Str(e.enc)), KdfValue(e.kdf), NonEmptySlice(e.nonce),
     Some(if e.payload.Some? then e.payload.value else Null)]
  }

  function EnvelopeFromValues(r: seq<Option<Json>>): Option<Envelope>
    requires |r| == |KEYS|
  {
    EnvelopeFrom(r[0], r[1], r[2], r[3], r[4], r[5])
  }

  function EnvelopeFrom(
      f: Option<Json>, version: Option<Json>, mode: Option<Json>, k: Option<Json>, n: Option<Json>, payload: Option<Json>): Option<Envelope>
  {
    var fmt :- TextField(f);
    var v :- IntField(version);
    var enc :- TextField(mode);
    var kdf :- KdfField(k);
    var nonce :- SliceField(n);
    Some(Envelope(fmt, v, enc, kdf, nonce, payload))
  }

  function MarshalEnvelope(e: Envelope): Bytes {
    MarshalBytes(Obj(Record(KEYS, EnvelopeValues(e))))
  }

  function UnmarshalEnvelope(data: Bytes): Option<Envelope> {
    var doc :- UnmarshalBytes(data);
    var fields :- FieldsOf(doc);
    EnvelopeFromValues(Reads(fields, KEYS))
  }

  // ----- the text of an envelope

  lemma KeysWords()
    ensures forall i :: 0 <= i < |KDF_KEYS| ==> Word(KDF_KEYS[i])
    ensures forall i :: 0 <= i < |KEYS| ==> Word(KEYS[i])
  {
  }

  function KdfParts(k: Kdf): seq<seq<string>> {
    [[Member("algo", QuoteTo(k.algo, ""))], [Member("t", Dec(k.time))], [Member("m", Dec(k.memory))],
     [Member("p", Dec(k.threads))], [Member("salt", BytesText(k.salt))]]
  }

  lemma KdfText(k: Kdf)
    ensures Marshal(KdfValue(Some(k)).value) == Braced(Flat(KdfParts(k)))
  {
    KeysWords();
    IntText(k.time);
    IntText(k.memory);
    IntText(k.threads);
    SliceText(k.salt);
    PartsText(KDF_KEYS, KdfValues(k), KdfParts(k));
  }

  /** The members of an envelope in order: a nil key derivation and an empty nonce are left out, and a
      nil payload is null. */
  function EnvelopeParts(e: Envelope): seq<seq<string>> {
    [[Member("fmt", QuoteTo(e.fmt, ""))], [Member("v", Itoa(e.v))], [Member("enc", QuoteTo(e.enc, ""))],
     if e.kdf.Some? then [Member("kdf", Braced(Flat(KdfParts(e.kdf.value))))] else [],
     if Contents(e.nonce) != [] then [Member("nonce", BytesText(e.nonce))] else [],
     [Member("payload", if e.payload.Some? then Marshal(e.payload.value) else "null")]]
  }

  lemma EnvelopeText(e: Envelope)
    ensures MarshalEnvelope(e) == EncodeText(Braced(Flat(EnvelopeParts(e))))
  {
    KeysWords();
    IntText(e.v);
    SliceText(e.nonce);
    if e.kdf.Some? { KdfText(e.kdf.value); }
    NullText();
    PartsText(KEYS, EnvelopeValues(e), EnvelopeParts(e));
  }

  /** The authenticated header is the envelope's text with a null payload. */
  lemma AadText(e: Envelope)
    ensures Aad(e) == EncodeText(Braced(Flat(EnvelopeParts(e.(payload := None)))))
  {
    EnvelopeText(e.(payload := None));
  }

  /** The text that a wrapped profile is stored as. */
  lemma WrappedText(profileJson: Slice, tag: string, mode: string)
    requires WrapPlaintext(profileJson).Some? && tag == "pharos-profile" && mode == "none"
    ensures WrapPlaintext(profileJson).value == EncodeText(Braced(Flat([
              [Member("fmt", Quoted(tag))], [Member("v", "1")], [Member("enc", Quoted(mode))], [], [],
              [Member("payload", Marshal(Denoted(profileJson).value))]])))
  {
    var payload := if profileJson.Nil? then None else Some(Denoted(profileJson).value);
    var e := Envelope(tag, 1, mode, None, Nil, payload);
    EnvelopeText(e);
    TagWords();
    BareParts(e, tag, mode, Denoted(profileJson).value);
  }

  lemma TagWords()
    ensures Word("pharos-profile") && Word("none")
  {
  }

  lemma BareParts(e: Envelope, tag: string, mode: string, doc: Json)
    requires e.fmt == tag && e.enc == mode && Word(tag) && Word(mode) && e.v == 1 && e.kdf.None? && e.nonce.Nil?
    requires doc == if e.payload.Some? then e.payload.value else Null
    ensures EnvelopeParts(e) == [[Member("fmt", Quoted(tag))], [Member("v", "1")], [Member("enc", Quoted(mode))], [], [],
                                 [Member("payload", Marshal(doc))]]
  {
    WordQuoted(tag);
    WordQuoted(mode);
    NullText();
  }

  lemma WordQuoted(s: string)
    requires Word(s)
    ensures QuoteTo(s, "") == Quoted(s)
  {
    WordPlain(s);
    QuotePlain(s);
  }

  /** aad: the authenticated header, which is the envelope with its payload cleared. */
  function Aad(e: Envelope): Bytes {
    MarshalEnvelope(e.(payload := None))
  }

  /** What a written envelope reads back as: an empty nonce becomes nil, a nil payload null. */
  function ReadBack(e: Envelope): Envelope {
    e.(nonce := if Contents(e.nonce) == [] then Nil else e.nonce,
       payload := if e.payload.None? then Some(Null) else e.payload)
  }

  ghost predicate Printable(e: Envelope) {
    e.payload.Some? ==> WellFormed(e.payload.value)
  }

  lemma KeysDistinct()
    ensures Distinct(KDF_KEYS) && Distinct(KEYS)
  {
  }

  lemma UintRoundTrip(i: nat, max: nat)
    requires i <= max <= UINT32_MAX
    ensures WellFormed(IntValue(i)) && UintField(Some(IntValue(i)), max) == Some(i)
  {
    IntRoundTrip(i);
  }

  lemma KdfRoundTrip(k: Kdf)
    ensures KdfField(KdfValue(Some(k))) == Some(Some(k)) && WellFormed(KdfValue(Some(k)).value)
  {
    KdfFromValuesOf(k);
    KdfValuesWellFormed(k);
    KeysDistinct();
    ReadsRecord(KDF_KEYS, KdfValues(k));
    RecordWellFormed(KDF_KEYS, KdfValues(k));
  }

  lemma KdfFromValuesOf(k: Kdf)
    ensures KdfFromValues(KdfValues(k)) == Some(k)
  {
    UintRoundTrip(k.time, UINT32_MAX);
    UintRoundTrip(k.memory, UINT32_MAX);
    UintRoundTrip(k.threads, UINT8_MAX);
    SliceRoundTrip(k.salt);
    KdfFromParts(k, Some(IntValue(k.time)), Some(IntValue(k.memory)), Some(IntValue(k.threads)), Some(SliceValue(k.salt)));
  }

  lemma KdfFromParts(k: Kdf, t: Option<Json>, m: Option<Json>, p: Option<Json>, salt: Option<Json>)
    requires UintField(t, UINT32_MAX) == Some(k.time) && UintField(m, UINT32_MAX) == Some(k.memory)
    requires UintField(p, UINT8_MAX) == Some(k.threads) && SliceField(salt) == Some(k.salt)
    ensures KdfFromValues([Some(Str(k.algo)), t, m, p, salt]) == Some(k)
  {
  }

  lemma KdfValuesWellFormed(k: Kdf)
    ensures AllWellFormed(KdfValues(k))
  {
    IntWellFormed(k.time);
    IntWellFormed(k.memory);
    IntWellFormed(k.threads);
    SliceRoundTrip(k.salt);
    SixWellFormed(Some(Str(k.algo)), Some(IntValue(k.time)), Some(IntValue(k.memory)), Some(IntValue(k.threads)),
                  Some(SliceValue(k.salt)), None);
    assert forall i :: 0 <= i < |KDF_KEYS| ==> KdfValues(k)[i] == (KdfValues(k) + [None])[i];
  }

  lemma KdfFieldRoundTrip(k: Option<Kdf>)
    ensures KdfField(KdfValue(k)) == Some(k) && (k.Some? ==> WellFormed(KdfValue(k).value))
  {
    if k.Some? {
      KdfRoundTrip(k.value);
    }
  }

  lemma FromParts(e: Envelope, version: Option<Json>, k: Option<Json>, n: Option<Json>, nonce: Slice, payload: Option<Json>)
    requires IntField(version) == Some(e.v) && KdfField(k) == Some(e.kdf) && SliceField(n) == Some(nonce)
    ensures EnvelopeFrom(Some(Str(e.fmt)), version, Some(Str(e.enc)), k, n, payload)
            == Some(Envelope(e.fmt, e.v, e.enc, e.kdf, nonce, payload))
  {
  }

  lemma EnvelopeFromValuesOf(e: Envelope)
    ensures EnvelopeFromValues(EnvelopeValues(e)) == Some(ReadBack(e))
  {
    var nonce := if Contents(e.nonce) == [] then Nil else e.nonce;
    IntRoundTrip(e.v);
    SliceRoundTrip(e.nonce);
    KdfFieldRoundTrip(e.kdf);
    FromParts(e, Some(IntValue(e.v)), KdfValue(e.kdf), NonEmptySlice(e.nonce), nonce,
              Some(if e.payload.Some? then e.payload.value else Null));
  }

  lemma EnvelopeValuesWellFormed(e: Envelope)
    requires Printable(e)
    ensures AllWellFormed(EnvelopeValues(e))
  {
    IntWellFormed(e.v);
    NonceWellFormed(e.nonce);
    KdfFieldRoundTrip(e.kdf);
    SixWellFormed(Some(Str(e.fmt)), Some(IntValue(e.v)), Some(Str(e.enc)), KdfValue(e.kdf), NonEmptySlice(e.nonce),
                  Some(if e.payload.Some? then e.payload.value else Null));
  }

  lemma NonceWellFormed(s: Slice)
    ensures NonEmptySlice(s).Some? ==> WellFormed(NonEmptySlice(s).value)
  {
  }

  ghost predicate Fine(v: Option<Json>) {
    v.Some? ==> WellFormed(v.value)
  }

  lemma SixWellFormed(a: Option<Json>, b: Option<Json>, c: Option<Json>, d: Option<Json>, e: Option<Json>, f: Option<Json>)
    requires Fine(a) && Fine(b) && Fine(c) && Fine(d) && Fine(e) && Fine(f)
    ensures AllWellFormed([a, b, c, d, e, f])
  {
  }

  lemma EnvelopeRoundTrip(e: Envelope)
    requires Printable(e)
    ensures UnmarshalEnvelope(MarshalEnvelope(e)) == Some(ReadBack(e))
  {
    EnvelopeFromValuesOf(e);
    EnvelopeValuesWellFormed(e);
    KeysDistinct();
    RecordRoundTrip(KEYS, EnvelopeValues(e));
  }

  /** The header recomputed from a file read back is byte for byte the header its writer
      authenticated. */
  lemma AadReadBack(e: Envelope)
    requires Printable(e)
    ensures var r := UnmarshalEnvelope(MarshalEnvelope(e)); r.Some? && Aad(r.value) == Aad(e)
  {
    EnvelopeRoundTrip(e);
    assert EnvelopeValues(ReadBack(e).(payload := None)) == EnvelopeValues(e.(payload := None));
  }

  /** The authenticated header determines format, version, mode, key-derivation parameters and
      nonce bytes, and nothing else: two files share a header exactly when these agree. */
  lemma AadDetermines(a: Envelope, b: Envelope)
    ensures Aad(a) == Aad(b) <==>
            a.fmt == b.fmt && a.v == b.v && a.enc == b.enc && a.kdf == b.kdf && Contents(a.nonce) == Contents(b.nonce)
  {
    var x, y := a.(payload := None), b.(payload := None);
    EnvelopeRoundTrip(x);
    EnvelopeRoundTrip(y);
    if a.fmt == b.fmt && a.v == b.v && a.enc == b.enc && a.kdf == b.kdf && Contents(a.nonce) == Contents(b.nonce) {
      assert EnvelopeValues(x) == EnvelopeValues(y);
    }
  }

  // ----- wrapping and opening

  datatype OpenError =
    | NotPharos
    | UnsupportedVersion(v: int64)
    | PasswordNeeded
    | AccountKeyNeeded
    | UnknownMode(enc: string)
    | CryptoError(failure: Failure)
    | BadPayload

  /** The document a raw message denotes: a nil one is null. */
  function Denoted(raw: Slice): Option<Json> {
    match raw
    case Nil => Some(Null)
    case Of(text) => UnmarshalBytes(text)
  }

  /** WrapPlaintext: an unencrypted envelope around a profile document; text that is not JSON is
      refused, but no document at all is written as null. */
  function WrapPlaintext(profileJson: Slice): Option<Bytes> {
    var payload :- Denoted(profileJson);
    Some(MarshalEnvelope(Envelope(FORMAT_TAG, FORMAT_VERSION, ENC_NONE, None, Nil, if profileJson.Nil? then None else Some(payload))))
  }

  /** header: the always-readable part of a file, if it is a profile file at all. */
  function Header(data: Bytes): Option<Envelope> {
    var e :- UnmarshalEnvelope(data);
    if e.fmt == FORMAT_TAG then Some(e) else None
  }

  function CiphertextIn(payload: Option<Json>): Option<Slice> {
    var v :- payload;
    SliceField(Some(v))
  }

  function OpenPassword(p: Primitives, e: Envelope, password: string): Result<Bytes, OpenError> {
    if password == "" then Err(PasswordNeeded)
    else if e.kdf.None? then Err(NotPharos)
    else match CiphertextIn(e.payload)
      case None => Err(NotPharos)
      case Some(ciphertext) =>
        var k := e.kdf.value;
        if !Derivable(k) then Err(CryptoError(KdfPanic))
        else
          var key := p.argon(password, Contents(k.salt), k.time, k.memory, k.threads);
          match OpenAead(p, key, Contents(e.nonce), Contents(ciphertext), Aad(e), WrongPassword)
          case Ok(m) => Ok(m)
          case Err(f) => Err(CryptoError(f))
  }

  /** The parameters Argon2id accepts; the file's header is used as it is. */
  predicate Derivable(k: Kdf) {
    k.time >= 1 && k.threads >= 1
  }

  datatype Options = Options(password: string, deviceKey: Bytes, signerPublic: Bytes)

  /** How the document is decoded into a profile; None is a document that does not fit. */
  type Decoder<!P> = Json -> Option<P>

  /** Parse: the profile a file holds, opened by its mode and decoded. */
  function ParseFile<P>(p: Primitives, data: Bytes, opts: Options, decode: Decoder<P>): Result<P, OpenError> {
    match Header(data)
    case None => Err(NotPharos)
    case Some(e) =>
      if e.v != FORMAT_VERSION then Err(UnsupportedVersion(e.v))
      else if e.enc == ENC_NONE then Decoded(e.payload, decode)
      else if e.enc == ENC_PASSWORD then
        var m :- OpenPassword(p, e, opts.password);
        Decoded(UnmarshalBytes(m), decode)
      else if e.enc == ENC_ACCOUNT then
        if opts.deviceKey == [] || opts.signerPublic == [] then Err(AccountKeyNeeded)
        else match BundleIn(e.payload)
          case None => Err(NotPharos)
          case Some(b) =>
            match OpenSealed(p, b, opts.deviceKey, opts.signerPublic)
            case Ok(m) => Decoded(UnmarshalBytes(m), decode)
            case Err(f) => Err(CryptoError(f))
      else Err(UnknownMode(e.enc))
  }

  /** What a document text decodes to, when it is one. */
  function Decoded<P>(doc: Option<Json>, decode: Decoder<P>): Result<P, OpenError> {
    match doc
    case None => Err(BadPayload)
    case Some(v) => (match decode(v) case Some(profile) => Ok(profile) case None => Err(BadPayload))
  }

  function BundleIn(payload: Option<Json>): Option<SealedBundle> {
    var v :- payload;
    var fields :- FieldsOf(v);
    FromValues(Reads(fields, SealedBundles.KEYS))
  }

  // ----- what is refused

  /** A file has a header exactly when it is a JSON object whose format is the tag and whose other
      fields are absent, null, or of their type. */
  lemma HeaderAccepts(data: Bytes)
    ensures Header(data).Some? <==>
            var doc := UnmarshalBytes(data);
            doc.Some? && doc.value.Obj? &&
            var fields := doc.value.fields;
            && Get(fields, "fmt") == Some(Str("pharos-profile"))
            && IntField(Get(fields, "v")).Some? && TextField(Get(fields, "enc")).Some?
            && KdfField(Get(fields, "kdf")).Some? && SliceField(Get(fields, "nonce")).Some?
    ensures Header(data).Some? ==>
              var fields := UnmarshalBytes(data).value.fields; var e := Header(data).value;
              && IntField(Get(fields, "v")) == Some(e.v) && TextField(Get(fields, "enc")) == Some(e.enc)
              && KdfField(Get(fields, "kdf")) == Some(e.kdf) && SliceField(Get(fields, "nonce")) == Some(e.nonce)
              && Get(fields, "payload") == e.payload
  {
    var doc := UnmarshalBytes(data);
    if doc.Some? && FieldsOf(doc.value).Some? {
      var fields := FieldsOf(doc.value).value;
      SixReads(fields);
    }
  }

  lemma SixReads(fields: Fields)
    ensures var r := Reads(fields, KEYS);
            && r[0] == Get(fields, "fmt") && r[1] == Get(fields, "v") && r[2] == Get(fields, "enc")
            && r[3] == Get(fields, "kdf") && r[4] == Get(fields, "nonce") && r[5] == Get(fields, "payload")
  {
    ReadsAt(fields, KEYS, 0);
    ReadsAt(fields, KEYS, 1);
    ReadsAt(fields, KEYS, 2);
    ReadsAt(fields, KEYS, 3);
    ReadsAt(fields, KEYS, 4);
    ReadsAt(fields, KEYS, 5);
  }

  /** What stands in the way of opening a file, in the order in which it is found. */
  lemma ParseRefuses<P>(p: Primitives, data: Bytes, opts: Options, decode: Decoder<P>)
    ensures var r := ParseFile(p, data, opts, decode);
            match Header(data)
            case None => r == Err(NotPharos)
            case Some(e) =>
              && (e.v != 1 <==> r == Err(UnsupportedVersion(e.v)))
              && (e.v == 1 && e.enc == "none" ==> r == Decoded(e.payload, decode))
              && (e.v == 1 && e.enc != "none" && e.enc != "password" && e.enc != "account" ==> r == Err(UnknownMode(e.enc)))
              && (e.v == 1 && e.enc == "password" && opts.password == "" ==> r == Err(PasswordNeeded))
              && (e.v == 1 && e.enc == "password" && opts.password != "" && e.kdf.None? ==> r == Err(NotPharos))
              && (e.v == 1 && e.enc == "account" && (opts.deviceKey == [] || opts.signerPublic == []) ==>
                    r == Err(AccountKeyNeeded))
  {
  }

  /** The same beyond the header: a payload that is no ciphertext or no bundle makes the file no profile
      file, and a bundle that does not open is refused for the bundle's reason. */
  lemma PayloadRefused<P>(p: Primitives, data: Bytes, opts: Options, decode: Decoder<P>)
    requires Header(data).Some? && Header(data).value.v == 1
    ensures var e := Header(data).value; var r := ParseFile(p, data, opts, decode);
            && (e.enc == "password" && opts.password != "" && e.kdf.Some? && CiphertextIn(e.payload).None? ==> r == Err(NotPharos))
            && (e.enc == "account" && opts.deviceKey != [] && opts.signerPublic != [] ==>
                  match BundleIn(e.payload)
                  case None => r == Err(NotPharos)
                  case Some(b) =>
                    match OpenSealed(p, b, opts.deviceKey, opts.signerPublic)
                    case Ok(m) => r == Decoded(UnmarshalBytes(m), decode)
                    case Err(f) => r == Err(CryptoError(f)))
  {
  }

  /** A password that does not open the file is reported as such, unless a panic comes first. */
  lemma WrongPasswordRefused<P>(p: Primitives, data: Bytes, opts: Options, decode: Decoder<P>)
    requires Header(data).Some? && Header(data).value.v == 1 && Header(data).value.enc == "password"
    requires var e := Header(data).value;
             opts.password != "" && e.kdf.Some? && CiphertextIn(e.payload).Some? && Derivable(e.kdf.value)
    ensures var e := Header(data).value;
            var key := p.argon(opts.password, Contents(e.kdf.value.salt), e.kdf.value.time, e.kdf.value.memory, e.kdf.value.threads);
            |key| == 32 && |Contents(e.nonce)| == 24
            && p.open(key, Contents(e.nonce), Contents(CiphertextIn(e.payload).value), Aad(e)).None? ==>
              ParseFile(p, data, opts, decode) == Err(CryptoError(WrongPassword))
  {
  }

  /** A document that is missing or does not decode is a bad payload. */
  lemma DecodedReports<P>(doc: Option<Json>, decode: Decoder<P>)
    ensures forall profile :: Decoded(doc, decode) == Ok(profile) <==> doc.Some? && decode(doc.value) == Some(profile)
    ensures Decoded(doc, decode).Err? ==> Decoded(doc, decode) == Err(BadPayload)
  {
  }

  /** A password file opens only with the ciphertext, nonce and header it holds, under the key that
      Argon2id derives with the file's own parameters. */
  lemma PasswordOpens<P>(p: Primitives, data: Bytes, opts: Options, decode: Decoder<P>)
    requires Header(data).Some? && Header(data).value.enc == "password" && ParseFile(p, data, opts, decode).Ok?
    ensures var e := Header(data).value;
            && e.kdf.Some? && e.kdf.value.time >= 1 && e.kdf.value.threads >= 1 && CiphertextIn(e.payload).Some?
            && var k := e.kdf.value;
               var key := p.argon(opts.password, Contents(k.salt), k.time, k.memory, k.threads);
               var m := p.open(key, Contents(e.nonce), Contents(CiphertextIn(e.payload).value), Aad(e));
               m.Some? && ParseFile(p, data, opts, decode) == Decoded(UnmarshalBytes(m.value), decode)
  {
  }

  /** An account file opens only when its bundle's signature verifies under the given signer and the
      bundle unseals with the device's key. */
  lemma AccountVerified<P>(p: Primitives, data: Bytes, opts: Options, decode: Decoder<P>)
    requires Header(data).Some? && Header(data).value.enc == "account" && ParseFile(p, data, opts, decode).Ok?
    ensures var b := BundleIn(Header(data).value.payload);
            && b.Some? && |opts.signerPublic| == 32
            && p.verify(opts.signerPublic, MarshalBundle(b.value.(signature := Nil)), Contents(b.value.signature))
            && exists m :: Unseals(p, b.value, opts.deviceKey, m)
                           && ParseFile(p, data, opts, decode) == Decoded(UnmarshalBytes(m), decode)
  {
    var b := BundleIn(Header(data).value.payload).value;
    var m := OpenSealed(p, b, opts.deviceKey, opts.signerPublic).value;
    OpensExactly(p, b, opts.deviceKey, opts.signerPublic, m);
  }

  // ----- round trips through a file

  /** A profile document wrapped without encryption passes the header check and parses back to the
      profile it denotes, or to the error that decoding it gives; wrapping fails only on bytes that
      are not a JSON document. */
  lemma WrapThenParse<P>(p: Primitives, profileJson: Slice, opts: Options, decode: Decoder<P>)
    ensures WrapPlaintext(profileJson).Some? <==> profileJson.Nil? || UnmarshalBytes(profileJson.bytes).Some?
    ensures WrapPlaintext(profileJson).Some? ==>
              && Header(WrapPlaintext(profileJson).value).Some?
              && ParseFile(p, WrapPlaintext(profileJson).value, opts, decode) == Decoded(Denoted(profileJson), decode)
  {
    if Denoted(profileJson).Some? {
      var payload := if profileJson.Nil? then None else UnmarshalBytes(profileJson.bytes);
      if profileJson.Of? {
        ReadWellFormed(profileJson.bytes);
      }
      EnvelopeRoundTrip(Envelope(FORMAT_TAG, FORMAT_VERSION, ENC_NONE, None, Nil, payload));
    }
  }

  /** The writer of a password file: seal the document under the derived key with the header as
      additional data. */
  function WritePassword(p: Primitives, document: Bytes, password: string, k: Kdf, nonce: Bytes): Bytes {
    var header := Envelope(FORMAT_TAG, FORMAT_VERSION, ENC_PASSWORD, Some(k), Of(nonce), None);
    var key := p.argon(password, Contents(k.salt), k.time, k.memory, k.threads);
    MarshalEnvelope(header.(payload := Some(SliceValue(Of(p.seal(key, nonce, document, Aad(header)))))))
  }

  /** A password file opens with its password, whatever its key-derivation parameters, except that
      opening one with zero passes or zero threads panics. */
  lemma PasswordRoundTrip<P>(
      p: Primitives, document: Bytes, password: string, k: Kdf, nonce: Bytes, opts: Options, decode: Decoder<P>)
    requires Lawful(p) && |nonce| == NONCE_BYTES && password != "" && opts.password == password
    ensures ParseFile(p, WritePassword(p, document, password, k, nonce), opts, decode) ==
            if Derivable(k) then Decoded(UnmarshalBytes(document), decode) else Err(CryptoError(KdfPanic))
  {
    var header := Envelope(FORMAT_TAG, FORMAT_VERSION, ENC_PASSWORD, Some(k), Of(nonce), None);
    var key := p.argon(password, Contents(k.salt), k.time, k.memory, k.threads);
    var sealed := Of(p.seal(key, nonce, document, Aad(header)));
    var e := header.(payload := Some(SliceValue(sealed)));
    SliceRoundTrip(sealed);
    EnvelopeRoundTrip(e);
    AadDetermines(e, header);
    assert ENC_PASSWORD != ENC_NONE;
    assert OpenPassword(p, e, password) == if Derivable(k) then Ok(document) else Err(CryptoError(KdfPanic));
  }

  function AccountFile(payload: Json): Bytes {
    MarshalEnvelope(Envelope(FORMAT_TAG, FORMAT_VERSION, ENC_ACCOUNT, None, Nil, Some(payload)))
  }

  function BundlePayload(b: SealedBundle): Json {
    Obj(Record(SealedBundles.KEYS, Values(b)))
  }

  lemma PayloadReads(b: SealedBundle)
    ensures BundleIn(Some(BundlePayload(b))) == Some(b) && WellFormed(BundlePayload(b))
  {
    SealedBundles.KeysDistinct();
    FromValuesOf(b);
    ReadsRecord(SealedBundles.KEYS, Values(b));
    RecordWellFormed(SealedBundles.KEYS, Values(b));
  }

  lemma AccountReads<P>(p: Primitives, payload: Json, b: SealedBundle, document: Bytes, opts: Options, decode: Decoder<P>)
    requires WellFormed(payload) && BundleIn(Some(payload)) == Some(b)
    requires opts.deviceKey != [] && opts.signerPublic != []
    requires OpenSealed(p, b, opts.deviceKey, opts.signerPublic) == Ok(document)
    ensures ParseFile(p, AccountFile(payload), opts, decode) == Decoded(UnmarshalBytes(document), decode)
  {
    EnvelopeRoundTrip(Envelope(FORMAT_TAG, FORMAT_VERSION, ENC_ACCOUNT, None, Nil, Some(payload)));
    assert ENC_ACCOUNT != ENC_NONE && ENC_ACCOUNT != ENC_PASSWORD;
  }

  /** An account file opens with the private half of the key it was sealed to. */
  lemma AccountRoundTrip<P>(
      p: Primitives, document: Bytes, recipient: Bytes, signer: Bytes, d: SealDraw, opts: Options, decode: Decoder<P>)
    requires Lawful(p) && |recipient| == KEY_BYTES && ValidDraw(d)
    requires opts.deviceKey == recipient && opts.signerPublic == p.signerPublic(signer)
    ensures var sealed := Seal(p, document, p.x25519(recipient, p.basePoint).value, signer, d);
            sealed.Some? &&
            ParseFile(p, AccountFile(BundlePayload(sealed.value)), opts, decode) == Decoded(UnmarshalBytes(document), decode)
  {
    SealThenOpen(p, document, recipient, signer, d);
    var b := Seal(p, document, p.x25519(recipient, p.basePoint).value, signer, d).value;
    PayloadReads(b);
    assert |opts.signerPublic| == PUBLIC_KEY_BYTES;
    AccountReads(p, BundlePayload(b), b, document, opts, decode);
  }
}
