/** Opening sealed profiles and passphrase-wrapped keys. The primitives are function values about
    which only their correctness equations are known. */
module Crypto {
  import opened Wrappers
  import opened Base64
  import opened Json
  import opened JsonRecords
  import opened SealedBundles
  import opened Text
  import opened Utf8

  const KEY_BYTES: nat := 32
  const NONCE_BYTES: nat := 24
  const SALT_BYTES: nat := 16
  const PUBLIC_KEY_BYTES: nat := 32
  const ARGON_TIME: nat := 1
  const ARGON_MEMORY: nat := 64 * 1024
  const ARGON_THREADS: nat := 4

  datatype Primitives = Primitives(
    basePoint: Bytes,
    x25519: (Bytes, Bytes) -> Option<Bytes>,
    hkdf: Bytes -> Bytes,
    argon: (string, Bytes, nat, nat, nat) -> Bytes,
    seal: (Bytes, Bytes, Bytes, Bytes) -> Bytes,
    open: (Bytes, Bytes, Bytes, Bytes) -> Option<Bytes>,
    signerPublic: Bytes -> Bytes,
    sign: (Bytes, Bytes) -> Bytes,
    verify: (Bytes, Bytes, Bytes) -> bool)

  /** X25519 agreement (section 6.1 of RFC 7748): every 32-byte scalar has a public point, and the
      two sides of an exchange compute the same secret. */
  ghost predicate Agreement(p: Primitives) {
    && (forall a: Bytes :: |a| == KEY_BYTES ==> p.x25519(a, p.basePoint).Some?)
    && (forall a: Bytes, b: Bytes :: |a| == KEY_BYTES && |b| == KEY_BYTES ==>
          var pa, pb := p.x25519(a, p.basePoint), p.x25519(b, p.basePoint);
          p.x25519(a, pb.value).Some? && p.x25519(a, pb.value) == p.x25519(b, pa.value))
  }

  ghost predicate SealOpens(p: Primitives) {
    forall k: Bytes, n: Bytes, m: Bytes, a: Bytes :: |k| == KEY_BYTES && |n| == NONCE_BYTES ==>
      p.open(k, n, p.seal(k, n, m, a), a) == Some(m)
  }

  ghost predicate SignatureVerifies(p: Primitives) {
    forall sk: Bytes, m: Bytes :: |p.signerPublic(sk)| == PUBLIC_KEY_BYTES
                                  && p.verify(p.signerPublic(sk), m, p.sign(sk, m))
  }

  ghost predicate KeysSized(p: Primitives) {
    && (forall s: Bytes :: |p.hkdf(s)| == KEY_BYTES)
    && (forall w: string, s: Bytes, t: nat, m: nat, th: nat :: t >= 1 && th >= 1 ==> |p.argon(w, s, t, m, th)| == KEY_BYTES)
  }

  ghost predicate Lawful(p: Primitives) {
    Agreement(p) && SealOpens(p) && SignatureVerifies(p) && KeysSized(p)
  }

  /** The Go code panics when an AEAD nonce has the wrong length, and when Argon2id is asked for zero
      passes or zero threads; these outcomes are kept apart. */
  datatype Failure = BadSignature | NotDecrypted | WrongPassphrase | WrongPassword | NoncePanic | KdfPanic

  // ----- AEAD

  /** XChaCha20-Poly1305 opening: a key of another size is refused, a nonce of another size panics. */
  function OpenAead(
      p: Primitives, key: Bytes, nonce: Bytes,
      sealed: Bytes, aad: Bytes, refusal: Failure): Result<Bytes, Failure>
  {
    if |key| != KEY_BYTES then Err(refusal)
    else if |nonce| != NONCE_BYTES then Err(NoncePanic)
    else match p.open(key, nonce, sealed, aad)
      case Some(m) => Ok(m)
      case None => Err(refusal)
  }

  /** A key that is not 32 bytes is refused before the nonce is looked at; then a nonce that is not 24
      bytes panics; then what does not authenticate is refused. */
  lemma AeadOrder(p: Primitives, key: Bytes, nonce: Bytes, sealed: Bytes, aad: Bytes, refusal: Failure)
    ensures var r := OpenAead(p, key, nonce, sealed, aad, refusal);
            if |key| != 32 then r == Err(refusal)
            else if |nonce| != 24 then r == Err(NoncePanic)
            else if p.open(key, nonce, sealed, aad).None? then r == Err(refusal)
            else r == Ok(p.open(key, nonce, sealed, aad).value)
  {
  }

  /** The slice in which Go's callers get an opened plaintext: it was appended to nil, so an empty one
      is nil. */
  function Handed(plaintext: Bytes): Slice {
    if plaintext == [] then Nil else Of(plaintext)
  }

  // ----- sealed bundles

  function OpenSealed(p: Primitives, b: SealedBundle, recipientPrivate: Bytes, signerPublic: Bytes): Result<Bytes, Failure> {
    if |signerPublic| != PUBLIC_KEY_BYTES || !p.verify(signerPublic, SigningBytes(b), Contents(b.signature)) then
      Err(BadSignature)
    else match p.x25519(recipientPrivate, Contents(b.ephPublic))
      case None => Err(NotDecrypted)
      case Some(shared) =>
        var dataKey :- OpenAead(p, p.hkdf(shared), Contents(b.wrapNonce), Contents(b.wrappedKey), [], NotDecrypted);
        OpenAead(p, dataKey, Contents(b.nonce), Contents(b.ciphertext), [], NotDecrypted)
  }

  /** The signature is refused exactly when the signer's key has the wrong size or the signature does
      not verify over the bundle's bytes with its signature cleared. */
  lemma SignatureChecked(p: Primitives, b: SealedBundle, recipientPrivate: Bytes, signerPublic: Bytes)
    ensures OpenSealed(p, b, recipientPrivate, signerPublic) == Err(BadSignature) <==>
            !(|signerPublic| == 32 && p.verify(signerPublic, MarshalBundle(b.(signature := Nil)), Contents(b.signature)))
  {
  }

  /** What the key exchange and the two openings have to give, once the signature verifies. */
  predicate Unseals(p: Primitives, b: SealedBundle, recipientPrivate: Bytes, m: Bytes) {
    var shared := p.x25519(recipientPrivate, Contents(b.ephPublic));
    shared.Some? && |p.hkdf(shared.value)| == 32 && |Contents(b.wrapNonce)| == 24 && |Contents(b.nonce)| == 24 &&
    var dataKey := p.open(p.hkdf(shared.value), Contents(b.wrapNonce), Contents(b.wrappedKey), []);
    dataKey.Some? && |dataKey.value| == 32 && p.open(dataKey.value, Contents(b.nonce), Contents(b.ciphertext), []) == Some(m)
  }

  /** A bundle opens exactly when its signature verifies and its two ciphertexts open in turn. */
  lemma OpensExactly(p: Primitives, b: SealedBundle, recipientPrivate: Bytes, signerPublic: Bytes, m: Bytes)
    ensures OpenSealed(p, b, recipientPrivate, signerPublic) == Ok(m) <==>
            && |signerPublic| == 32
            && p.verify(signerPublic, MarshalBundle(b.(signature := Nil)), Contents(b.signature))
            && Unseals(p, b, recipientPrivate, m)
  {
  }

  /** The random bytes a sealer draws. */
  datatype SealDraw = SealDraw(dataKey: Bytes, nonce: Bytes, ephemeral: Bytes, wrapNonce: Bytes)

  predicate ValidDraw(d: SealDraw) {
    |d.dataKey| == KEY_BYTES && |d.ephemeral| == KEY_BYTES && |d.nonce| == NONCE_BYTES && |d.wrapNonce| == NONCE_BYTES
  }

  /** The controller's side: seal plaintext to a recipient's public key and sign the bundle. */
  function Seal(p: Primitives, plaintext: Bytes, recipientPublic: Bytes, signer: Bytes, d: SealDraw): Option<SealedBundle> {
    var ephPublic :- p.x25519(d.ephemeral, p.basePoint);
    var shared :- p.x25519(d.ephemeral, recipientPublic);
    var unsigned := SealedBundle(1, Of(ephPublic), Of(d.wrapNonce), Of(p.seal(p.hkdf(shared), d.wrapNonce, d.dataKey, [])),
                                 Of(d.nonce), Of(p.seal(d.dataKey, d.nonce, plaintext, [])), Nil);
    Some(unsigned.(signature := Of(p.sign(signer, SigningBytes(unsigned)))))
  }

  /** Sealing then opening gives the plaintext back, for every plaintext, key and draw. */
  lemma SealThenOpen(p: Primitives, plaintext: Bytes, recipient: Bytes, signer: Bytes, d: SealDraw)
    requires Lawful(p) && |recipient| == KEY_BYTES && ValidDraw(d)
    ensures var public := p.x25519(recipient, p.basePoint);
            public.Some? &&
            var sealed := Seal(p, plaintext, public.value, signer, d);
            sealed.Some? && OpenSealed(p, sealed.value, recipient, p.signerPublic(signer)) == Ok(plaintext)
  {
  }

  /** What a sealed bundle carries: version 1, the ephemeral public key and the two nonces as drawn. */
  lemma SealedParts(p: Primitives, plaintext: Bytes, recipientPublic: Bytes, signer: Bytes, d: SealDraw)
    ensures var sealed := Seal(p, plaintext, recipientPublic, signer, d);
            sealed.Some? ==>
              && sealed.value.v == 1 && p.x25519(d.ephemeral, p.basePoint) == Some(Contents(sealed.value.ephPublic))
              && sealed.value.wrapNonce == Of(d.wrapNonce) && sealed.value.nonce == Of(d.nonce)
  {
  }

  // ----- passphrase-wrapped private keys

  datatype WrappedKey = WrappedKey(v: int64, salt: Slice, nonce: Slice, ct: Slice)

  const WRAP_KEYS: seq<string> := ["v", "salt", "n", "ct"]

  function WrappedValues(w: WrappedKey): (r: seq<Option<Json>>)
    ensures |r| == |WRAP_KEYS|
  {
    [Some(IntValue(w.v))] + SliceValues([w.salt, w.nonce, w.ct])
  }

  function WrappedFromValues(r: seq<Option<Json>>): Option<WrappedKey>
    requires |r| == |WRAP_KEYS|
  {
    var v :- IntField(r[0]);
    var s :- SliceFields(r[1..]);
    Some(WrappedKey(v, s[0], s[1], s[2]))
  }

  function MarshalWrapped(w: WrappedKey): Bytes {
    MarshalBytes(Obj(Record(WRAP_KEYS, WrappedValues(w))))
  }

  function UnmarshalWrapped(blob: Bytes): Option<WrappedKey> {
    var doc :- UnmarshalBytes(blob);
    var fields :- FieldsOf(doc);
    WrappedFromValues(Reads(fields, WRAP_KEYS))
  }

  lemma WrapKeysDistinct()
    ensures Distinct(WRAP_KEYS)
  {
  }

  lemma WrappedRoundTrip(w: WrappedKey)
    ensures UnmarshalWrapped(MarshalWrapped(w)) == Some(w)
  {
    var slices := [w.salt, w.nonce, w.ct];
    IntRoundTrip(w.v);
    SlicesRoundTrip(slices);
    assert WrappedValues(w)[1..] == SliceValues(slices);
    WrapKeysDistinct();
    RecordRoundTrip(WRAP_KEYS, WrappedValues(w));
  }

  lemma WrapKeysWords()
    ensures forall i :: 0 <= i < |WRAP_KEYS| ==> Word(WRAP_KEYS[i])
  {
  }

  function WrappedParts(w: WrappedKey): seq<seq<string>> {
    [[Member("v", Itoa(w.v))], [Member("salt", BytesText(w.salt))], [Member("n", BytesText(w.nonce))],
     [Member("ct", BytesText(w.ct))]]
  }

  lemma WrappedPartAt(w: WrappedKey, i: nat)
    requires i < |WRAP_KEYS|
    ensures |WrappedParts(w)| == 4 && WrappedParts(w)[i] == MemberIf(WRAP_KEYS[i], WrappedValues(w)[i])
  {
    var slices := [w.salt, w.nonce, w.ct];
    if i == 0 {
      IntText(w.v);
    } else {
      SliceValueAt(slices, i - 1);
      SliceText(slices[i - 1]);
    }
  }

  /** The bytes of a wrapped private key: version 1, the salt, the nonce, and the key sealed under what
      Argon2id derives with one pass, 64 MiB and four threads. */
  lemma WrappedText(p: Primitives, passphrase: string, private: Bytes, salt: Bytes, nonce: Bytes)
    ensures var ct := p.seal(p.argon(passphrase, salt, 1, 65536, 4), nonce, private, []);
            WrapPrivateKey(p, passphrase, private, salt, nonce)
            == EncodeText(Braced(Flat(WrappedParts(WrappedKey(1, Of(salt), Of(nonce), Of(ct))))))
  {
    var w := WrappedKey(1, Of(salt), Of(nonce), Of(p.seal(DeriveKek(p, passphrase, salt), nonce, private, [])));
    WrapKeysWords();
    forall i | 0 <= i < |WRAP_KEYS|
      ensures |WrappedParts(w)| == 4 && WrappedParts(w)[i] == MemberIf(WRAP_KEYS[i], WrappedValues(w)[i])
    {
      WrappedPartAt(w, i);
    }
    PartsText(WRAP_KEYS, WrappedValues(w), WrappedParts(w));
  }

  function DeriveKek(p: Primitives, passphrase: string, salt: Bytes): Bytes {
    p.argon(passphrase, salt, ARGON_TIME, ARGON_MEMORY, ARGON_THREADS)
  }

  /** WrapPrivateKey with its two random draws as parameters. */
  function WrapPrivateKey(p: Primitives, passphrase: string, private: Bytes, salt: Bytes, nonce: Bytes): Bytes {
    MarshalWrapped(WrappedKey(1, Of(salt), Of(nonce), Of(p.seal(DeriveKek(p, passphrase, salt), nonce, private, []))))
  }

  function UnwrapPrivateKey(p: Primitives, passphrase: string, blob: Bytes): Result<Bytes, Failure> {
    match UnmarshalWrapped(blob)
    case None => Err(WrongPassphrase)
    case Some(w) =>
      OpenAead(p, DeriveKek(p, passphrase, Contents(w.salt)), Contents(w.nonce), Contents(w.ct), [], WrongPassphrase)
  }

  /** The same passphrase unwraps what it wrapped, for every key, salt and nonce. */
  lemma WrapThenUnwrap(p: Primitives, passphrase: string, private: Bytes, salt: Bytes, nonce: Bytes)
    requires Lawful(p) && |nonce| == NONCE_BYTES
    ensures UnwrapPrivateKey(p, passphrase, WrapPrivateKey(p, passphrase, private, salt, nonce)) == Ok(private)
  {
    var kek := DeriveKek(p, passphrase, salt);
    WrappedRoundTrip(WrappedKey(1, Of(salt), Of(nonce), Of(p.seal(kek, nonce, private, []))));
  }

  /** A blob unwraps exactly to what opens under the key that Argon2id derives from the passphrase and
      the blob's own salt, with one pass, 64 MiB and four threads; anything else is refused, except
      that a nonce of the wrong size panics. */
  lemma UnwrapsExactly(p: Primitives, passphrase: string, blob: Bytes, private: Bytes)
    ensures UnwrapPrivateKey(p, passphrase, blob) == Ok(private) <==>
            var w := UnmarshalWrapped(blob);
            w.Some? && |Contents(w.value.nonce)| == 24 &&
            var kek := p.argon(passphrase, Contents(w.value.salt), 1, 65536, 4);
            |kek| == 32 && p.open(kek, Contents(w.value.nonce), Contents(w.value.ct), []) == Some(private)
    ensures UnwrapPrivateKey(p, passphrase, blob).Err? ==>
              UnwrapPrivateKey(p, passphrase, blob).error in {WrongPassphrase, NoncePanic}
  {
  }

  // ----- the equations are consistent

  function AddBytes(a: Bytes, b: Bytes): (r: Bytes)
    requires |a| == |b|
    ensures |r| == |a| && forall i :: 0 <= i < |a| ==> r[i] == (a[i] as int + b[i] as int) % 256
  {
    if a == [] then [] else [(a[0] as int + b[0] as int) % 256] + AddBytes(a[1..], b[1..])
  }

  /** Some primitives satisfy every equation, so no result below rests on a contradiction. */
  lemma LawfulPrimitivesExist() returns (p: Primitives)
    ensures Lawful(p)
  {
    var zeros: Bytes := seq(KEY_BYTES, _ => 0);
    p := Primitives(
      zeros,
      (a: Bytes, b: Bytes) => if |a| == KEY_BYTES && |b| == KEY_BYTES then Some(AddBytes(a, b)) else None,
      (s: Bytes) => zeros,
      (w: string, s: Bytes, t: nat, m: nat, th: nat) => zeros,
      (k: Bytes, n: Bytes, m: Bytes, a: Bytes) => m,
      (k: Bytes, n: Bytes, c: Bytes, a: Bytes) => Some(c),
      (sk: Bytes) => zeros,
      (sk: Bytes, m: Bytes) => [],
      (pk: Bytes, m: Bytes, sig: Bytes) => true);
    forall a: Bytes | |a| == KEY_BYTES ensures AddBytes(a, zeros) == a {}
    forall a: Bytes, b: Bytes | |a| == KEY_BYTES && |b| == KEY_BYTES ensures AddBytes(a, b) == AddBytes(b, a) {}
  }
}
