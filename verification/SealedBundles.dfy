/** A profile sealed to one user, and the bytes its signature covers. */
module SealedBundles {
  import opened Wrappers
  import opened Base64
  import opened Json
  import opened JsonRecords
  import opened Text
  import opened Utf8

  datatype SealedBundle = SealedBundle(
    v: int64,
    ephPublic: Slice,
    wrapNonce: Slice,
    wrappedKey: Slice,
    nonce: Slice,
    ciphertext: Slice,
    signature: Slice)

  const KEYS: seq<string> := ["v", "epk", "wn", "wk", "n", "ct", "sig"]

  function Values(b: SealedBundle): (r: seq<Option<Json>>)
    ensures |r| == |KEYS|
  {
    [Some(IntValue(b.v))]
    + SliceValues([b.ephPublic, b.wrapNonce, b.wrappedKey, b.nonce, b.ciphertext, b.signature])
  }

  function MarshalBundle(b: SealedBundle): Bytes {
    MarshalBytes(Obj(Record(KEYS, Values(b))))
  }

  function UnmarshalBundle(data: Bytes): Option<SealedBundle> {
    var doc :- UnmarshalBytes(data);
    var fields :- FieldsOf(doc);
    FromValues(Reads(fields, KEYS))
  }

  function FromValues(r: seq<Option<Json>>): Option<SealedBundle>
    requires |r| == |KEYS|
  {
    var v :- IntField(r[0]);
    var s :- SliceFields(r[1..]);
    Some(SealedBundle(v, s[0], s[1], s[2], s[3], s[4], s[5]))
  }

  /** signingBytes: the whole bundle with its signature cleared. */
  function SigningBytes(b: SealedBundle): Bytes {
    MarshalBundle(b.(signature := Nil))
  }

  lemma KeysDistinct()
    ensures Distinct(KEYS)
  {
  }

  lemma FromValuesOf(b: SealedBundle)
    ensures FromValues(Values(b)) == Some(b) && AllWellFormed(Values(b))
  {
    var slices := [b.ephPublic, b.wrapNonce, b.wrappedKey, b.nonce, b.ciphertext, b.signature];
    IntRoundTrip(b.v);
    SlicesRoundTrip(slices);
    assert Values(b)[1..] == SliceValues(slices);
  }

  /** A bundle survives marshalling, nil and empty fields told apart. */
  lemma BundleRoundTrip(b: SealedBundle)
    ensures UnmarshalBundle(MarshalBundle(b)) == Some(b)
  {
    KeysDistinct();
    FromValuesOf(b);
    RecordRoundTrip(KEYS, Values(b));
  }

  lemma KeysWords()
    ensures forall i :: 0 <= i < |KEYS| ==> Word(KEYS[i])
  {
  }

  /** The seven members in order, each slice null or base64. */
  function BundleParts(b: SealedBundle): seq<seq<string>> {
    [[Member("v", Itoa(b.v))], [Member("epk", BytesText(b.ephPublic))], [Member("wn", BytesText(b.wrapNonce))],
     [Member("wk", BytesText(b.wrappedKey))], [Member("n", BytesText(b.nonce))], [Member("ct", BytesText(b.ciphertext))],
     [Member("sig", BytesText(b.signature))]]
  }

  lemma PartAt(b: SealedBundle, i: nat)
    requires i < |KEYS|
    ensures |BundleParts(b)| == 7 && BundleParts(b)[i] == MemberIf(KEYS[i], Values(b)[i])
  {
    var slices := [b.ephPublic, b.wrapNonce, b.wrappedKey, b.nonce, b.ciphertext, b.signature];
    if i == 0 {
      IntText(b.v);
    } else {
      SliceValueAt(slices, i - 1);
      SliceText(slices[i - 1]);
    }
  }

  /** A bundle's bytes. */
  lemma BundleText(b: SealedBundle)
    ensures MarshalBundle(b) == EncodeText(Braced(Flat(BundleParts(b))))
  {
    KeysWords();
    forall i | 0 <= i < |KEYS| ensures |BundleParts(b)| == 7 && BundleParts(b)[i] == MemberIf(KEYS[i], Values(b)[i]) {
      PartAt(b, i);
    }
    PartsText(KEYS, Values(b), BundleParts(b));
  }

  /** The signed bytes, with a null signature. */
  lemma SigningText(b: SealedBundle)
    ensures SigningBytes(b) == EncodeText(Braced(Flat([
              [Member("v", Itoa(b.v))], [Member("epk", BytesText(b.ephPublic))], [Member("wn", BytesText(b.wrapNonce))],
              [Member("wk", BytesText(b.wrappedKey))], [Member("n", BytesText(b.nonce))],
              [Member("ct", BytesText(b.ciphertext))], [Member("sig", "null")]])))
  {
    BundleText(b.(signature := Nil));
  }

  /** The signed bytes determine the bundle: two bundles are signed over the same bytes exactly
      when they agree on everything but the signature. */
  lemma SigningBytesInjective(a: SealedBundle, b: SealedBundle)
    ensures SigningBytes(a) == SigningBytes(b) <==> a.(signature := b.signature) == b
  {
    BundleRoundTrip(a.(signature := Nil));
    BundleRoundTrip(b.(signature := Nil));
  }

  /** What a verifier recomputes from the received bytes is what the signer signed. */
  lemma VerifierRecomputes(b: SealedBundle, signature: Slice)
    ensures var received := UnmarshalBundle(MarshalBundle(b.(signature := signature)));
            received.Some? && SigningBytes(received.value) == SigningBytes(b)
  {
    BundleRoundTrip(b.(signature := signature));
  }
}
