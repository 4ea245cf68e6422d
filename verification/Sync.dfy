/** Account sync against a controller that keeps the enrolled key pair: authenticate, enroll the
    account key on a first device, fetch the sealed profile, recover the key that opens it. */
module Sync {
  import opened Wrappers
  import opened Base64
  import opened JsonRecords
  import opened SealedBundles
  import opened Crypto
  import opened DeviceIds

  // ----- messages

  datatype Rpc =
    | Authenticate(email: string, password: string)
    | EnrollKeys(token: string, public: Bytes, wrapped: Bytes)
    | GetProfile(token: string)

  datatype AuthReply = AuthReply(token: string, userId: string, keysEnrolled: bool)

  datatype RemoteProfile = RemoteProfile(ciphertext: Bytes, revision: int, signingPublicKey: Bytes, wrappedPrivateKey: Bytes)

  datatype SyncError =
    | BadDeviceKey(keyError: DeviceIds.KeyError)
    | DialFailed
    | AuthFailed
    | NotAuthenticated
    | EnrollFailed
    | NoProfile
    | ProfileFailed
    | NoKey
    | Malformed
    | Crypto(failure: Failure)

  datatype Outcome = Outcome(userId: string, revision: int, plaintext: Bytes, deviceKey: Bytes)

  datatype Enrolled = Enrolled(public: Bytes, wrapped: Bytes)

  datatype Issued = Issued(plaintext: Bytes, revision: int)

  // ----- the controller

  /** The controller a relay leads to. A device is known by the leaf certificate it presents; one
      that claimed a join link has its own public key registered under that leaf. A call may be lost on
      its way, and so may the answer to one that arrived and took effect; the log holds every call
      that was sent. */
  class Controller {
    const p: Primitives
    const signer: Bytes
    const deviceKeys: string -> Option<Bytes>
    const strayBlobs: string -> Bytes
    const login: (string, string, string) -> Option<(string, string)>
    const arrives: nat -> bool
    const answered: nat -> bool
    const draws: nat -> SealDraw
    var enrolled: Option<Enrolled>
    var profile: Option<Issued>
    var log: seq<Rpc>

    constructor (
        p: Primitives, signer: Bytes, deviceKeys: string -> Option<Bytes>, strayBlobs: string -> Bytes,
        login: (string, string, string) -> Option<(string, string)>, arrives: nat -> bool, answered: nat -> bool,
        draws: nat -> SealDraw, profile: Option<Issued>)
      ensures this.p == p && this.signer == signer && this.deviceKeys == deviceKeys && this.strayBlobs == strayBlobs
      ensures this.login == login && this.arrives == arrives && this.answered == answered && this.draws == draws
      ensures enrolled == None && this.profile == profile && log == []
    {
      this.p, this.signer, this.deviceKeys, this.strayBlobs := p, signer, deviceKeys, strayBlobs;
      this.login, this.arrives, this.answered, this.draws := login, arrives, answered, draws;
      enrolled, this.profile, log := None, profile, [];
    }

    method Authenticate(leaf: string, email: string, password: string) returns (r: Option<AuthReply>)
      modifies this`log
      ensures log == old(log) + [Rpc.Authenticate(email, password)]
      ensures r.Some? <==> Reached(|old(log)|) && login(leaf, email, password).Some?
      ensures r.Some? ==> r.value == AuthReply(login(leaf, email, password).value.0, login(leaf, email, password).value.1, enrolled.Some?)
    {
      var session := login(leaf, email, password);
      var answer := Reached(|log|);
      log := log + [Rpc.Authenticate(email, password)];
      if answer && session.Some? {
        return Some(AuthReply(session.value.0, session.value.1, enrolled.Some?));
      }
      return None;
    }

    /** The caller gets the answer to its call. */
    predicate Reached(at: nat) {
      arrives(at) && answered(at)
    }

    /** The first enrolled pair is kept, also when its answer is lost. */
    method EnrollKeys(token: string, public: Bytes, wrapped: Bytes) returns (ok: bool)
      modifies this`log, this`enrolled
      ensures log == old(log) + [Rpc.EnrollKeys(token, public, wrapped)]
      ensures ok == (Reached(|old(log)|) && old(enrolled).None?)
      ensures enrolled == (if arrives(|old(log)|) && old(enrolled).None? then Some(Enrolled(public, wrapped)) else old(enrolled))
    {
      var at := |log|;
      log := log + [Rpc.EnrollKeys(token, public, wrapped)];
      if !arrives(at) || enrolled.Some? {
        return false;
      }
      enrolled := Some(Enrolled(public, wrapped));
      return answered(at);
    }

    /** The key a profile is sealed to: the device's own when registered, else the account's. */
    function Recipient(leaf: string): Option<Bytes>
      reads this`enrolled
    {
      match (deviceKeys(leaf), enrolled)
      case (Some(key), _) => Some(key)
      case (None, Some(pair)) => Some(pair.public)
      case (None, None) => None
    }

    function BlobFor(leaf: string): Bytes
      reads this`enrolled
    {
      if deviceKeys(leaf).Some? || enrolled.None? then strayBlobs(leaf) else enrolled.value.wrapped
    }

    method GetProfile(leaf: string, token: string) returns (r: Result<RemoteProfile, SyncError>)
      modifies this`log
      ensures log == old(log) + [Rpc.GetProfile(token)]
      ensures r.Ok? <==> Reached(|old(log)|) && CanSeal(leaf, |old(log)|)
      ensures r.Ok? ==> r.value == Sealed(leaf, |old(log)|)
    {
      var answer, at := Reached(|log|), |log|;
      log := log + [Rpc.GetProfile(token)];
      if !answer {
        return Err(ProfileFailed);
      }
      var to := Recipient(leaf);
      if profile.None? || to.None? {
        return Err(NoProfile);
      }
      var sealed := Seal(p, profile.value.plaintext, to.value, signer, draws(at));
      if sealed.None? {
        return Err(ProfileFailed);
      }
      return Ok(Sealed(leaf, at));
    }

    predicate CanSeal(leaf: string, at: nat)
      reads this`enrolled, this`profile
    {
      profile.Some? && Recipient(leaf).Some?
      && Seal(p, profile.value.plaintext, Recipient(leaf).value, signer, draws(at)).Some?
    }

    function Sealed(leaf: string, at: nat): RemoteProfile
      requires CanSeal(leaf, at)
      reads this`enrolled, this`profile
    {
      var sealed := Seal(p, profile.value.plaintext, Recipient(leaf).value, signer, draws(at)).value;
      RemoteProfile(MarshalBundle(sealed), profile.value.revision, p.signerPublic(signer), BlobFor(leaf))
    }

    /** The enrolled pair belongs to this private key, and this passphrase unwraps it. */
    ghost predicate Keyed(password: string, private: Bytes)
      reads this`enrolled
    {
      enrolled.Some? && PairOf(p, enrolled.value, password, private)
    }

    ghost predicate Sound() {
      Lawful(p) && forall n :: ValidDraw(draws(n))
    }
  }

  ghost predicate PairOf(p: Primitives, pair: Enrolled, password: string, private: Bytes) {
    |private| == KEY_BYTES && p.x25519(private, p.basePoint) == Some(pair.public)
    && UnwrapPrivateKey(p, password, pair.wrapped) == Ok(private)
  }

  // ----- recovering the key and opening the profile

  /** decryptionKey: the device's own key is authoritative, whatever blob came back with it. */
  function DecryptionKey(
      p: Primitives, devicePrivate: Option<Bytes>,
      password: string, wrapped: Bytes): Result<Bytes, SyncError>
  {
    match devicePrivate
    case Some(key) => Ok(key)
    case None =>
      if wrapped == [] then Err(NoKey)
      else match UnwrapPrivateKey(p, password, wrapped)
        case Ok(key) => Ok(key)
        case Err(f) => Err(SyncError.Crypto(f))
  }

  function OpenProfile(p: Primitives, rp: RemoteProfile, key: Bytes): Result<Bytes, SyncError> {
    match UnmarshalBundle(rp.ciphertext)
    case None => Err(SyncError.Malformed)
    case Some(b) =>
      match OpenSealed(p, b, key, rp.signingPublicKey)
      case Ok(m) => Ok(m)
      case Err(f) => Err(SyncError.Crypto(f))
  }

  /** The bytes received are a bundle whose signature verifies under the signer's key. */
  predicate Verified(p: Primitives, rp: RemoteProfile) {
    var b := UnmarshalBundle(rp.ciphertext);
    b.Some? && |rp.signingPublicKey| == 32
    && p.verify(rp.signingPublicKey, MarshalBundle(b.value.(signature := Nil)), Contents(b.value.signature))
  }

  /** Nothing opens that is not a bundle with a verifying signature, whoever sent it: other text is
      malformed, and a bundle whose signature does not verify is refused as such. */
  lemma OnlyVerifiedOpens(p: Primitives, rp: RemoteProfile, key: Bytes)
    ensures OpenProfile(p, rp, key) == Err(SyncError.Malformed) <==> UnmarshalBundle(rp.ciphertext).None?
    ensures OpenProfile(p, rp, key) == Err(SyncError.Crypto(BadSignature)) <==>
            UnmarshalBundle(rp.ciphertext).Some? && !Verified(p, rp)
    ensures OpenProfile(p, rp, key).Ok? ==>
              Verified(p, rp) && Unseals(p, UnmarshalBundle(rp.ciphertext).value, key, OpenProfile(p, rp, key).value)
  {
    if UnmarshalBundle(rp.ciphertext).Some? {
      var b := UnmarshalBundle(rp.ciphertext).value;
      SignatureChecked(p, b, key, rp.signingPublicKey);
      if OpenProfile(p, rp, key).Ok? {
        OpensExactly(p, b, key, rp.signingPublicKey, OpenProfile(p, rp, key).value);
      }
    }
  }

  /** There is no key exactly when the device has none of its own and no wrapped key came back. */
  lemma NoKeyWhen(p: Primitives, devicePrivate: Option<Bytes>, password: string, wrapped: Bytes)
    ensures DecryptionKey(p, devicePrivate, password, wrapped) == Err(NoKey) <==> devicePrivate.None? && wrapped == []
  {
  }

  /** A sealed profile that travelled as JSON opens with the private half of the key it was sealed
      to, for every plaintext and every draw. */
  lemma SealedProfileOpens(
      p: Primitives, plaintext: Bytes, private: Bytes,
      signer: Bytes, d: SealDraw, revision: int, blob: Bytes)
    requires Lawful(p) && |private| == KEY_BYTES && ValidDraw(d)
    ensures var public := p.x25519(private, p.basePoint);
            public.Some? &&
            var sealed := Seal(p, plaintext, public.value, signer, d);
            sealed.Some? &&
            OpenProfile(p, RemoteProfile(MarshalBundle(sealed.value), revision, p.signerPublic(signer), blob), private) == Ok(plaintext)
  {
    SealThenOpen(p, plaintext, private, signer, d);
    BundleRoundTrip(Seal(p, plaintext, p.x25519(private, p.basePoint).value, signer, d).value);
  }

  /** Both decryption paths end in the same plaintext: the device's own key ignores whatever blob
      comes back, and the passphrase unwraps the account key that was enrolled. */
  lemma BothPathsOpen(
      p: Primitives, plaintext: Bytes, private: Bytes, signer: Bytes, d: SealDraw,
      password: string, salt: Bytes, nonce: Bytes, blob: Bytes, revision: int)
    requires Lawful(p) && |private| == KEY_BYTES && ValidDraw(d) && |nonce| == NONCE_BYTES
    ensures var wrapped := WrapPrivateKey(p, password, private, salt, nonce);
            var sealed := Seal(p, plaintext, p.x25519(private, p.basePoint).value, signer, d);
            && DecryptionKey(p, Some(private), password, blob) == Ok(private)
            && DecryptionKey(p, None, password, wrapped) == Ok(private)
            && sealed.Some?
            && OpenProfile(p, RemoteProfile(MarshalBundle(sealed.value), revision, p.signerPublic(signer), blob), private) == Ok(plaintext)
  {
    WrapThenUnwrap(p, password, private, salt, nonce);
    WrappedNotEmpty(p, password, private, salt, nonce);
    SealedProfileOpens(p, plaintext, private, signer, d, revision, blob);
  }

  lemma WrappedNotEmpty(p: Primitives, password: string, private: Bytes, salt: Bytes, nonce: Bytes)
    requires Lawful(p) && |nonce| == NONCE_BYTES
    ensures WrapPrivateKey(p, password, private, salt, nonce) != []
  {
  }

  // ----- the client

  /** The random bytes a first device draws. */
  datatype ClientDraw = ClientDraw(private: Bytes, salt: Bytes, nonce: Bytes)

  predicate ValidClientDraw(d: ClientDraw) {
    |d.private| == KEY_BYTES && |d.salt| == SALT_BYTES && |d.nonce| == NONCE_BYTES
  }

  class Client {
    const server: Controller
    const leaf: string
    var token: string

    constructor (server: Controller, leaf: string)
      ensures this.server == server && this.leaf == leaf && token == ""
    {
      this.server, this.leaf, token := server, leaf, "";
    }

    method Authenticate(email: string, password: string) returns (r: Result<AuthReply, SyncError>)
      modifies this, server`log
      ensures server.log == old(server.log) + [Rpc.Authenticate(email, password)]
      ensures r.Ok? <==> server.Reached(|old(server.log)|) && server.login(leaf, email, password).Some?
      ensures r.Err? ==> token == old(token)
      ensures r.Ok? ==> token == r.value.token == server.login(leaf, email, password).value.0
                        && r.value.userId == server.login(leaf, email, password).value.1
                        && r.value.keysEnrolled == server.enrolled.Some?
    {
      var reply := server.Authenticate(leaf, email, password);
      if reply.None? {
        return Err(AuthFailed);
      }
      token := reply.value.token;
      return Ok(reply.value);
    }

    /** Refused locally, with nothing sent, before a session token is held. */
    method EnrollKeys(public: Bytes, wrapped: Bytes) returns (r: Result<(), SyncError>)
      modifies server`log, server`enrolled
      ensures token == "" ==> r.Err? && server.log == old(server.log) && server.enrolled == old(server.enrolled)
      ensures token != "" ==> server.log == old(server.log) + [Rpc.EnrollKeys(token, public, wrapped)]
      ensures r.Ok? <==> token != "" && server.Reached(|old(server.log)|) && old(server.enrolled).None?
      ensures server.enrolled ==
              if token != "" && server.arrives(|old(server.log)|) && old(server.enrolled).None?
              then Some(Enrolled(public, wrapped)) else old(server.enrolled)
    {
      if token == "" {
        return Err(NotAuthenticated);
      }
      var ok := server.EnrollKeys(token, public, wrapped);
      return if ok then Ok(()) else Err(EnrollFailed);
    }

    method GetProfile() returns (r: Result<RemoteProfile, SyncError>)
      modifies server`log
      ensures token == "" ==> r.Err? && server.log == old(server.log)
      ensures token != "" ==> server.log == old(server.log) + [Rpc.GetProfile(token)]
      ensures r.Ok? <==> token != "" && server.Reached(|old(server.log)|) && server.CanSeal(leaf, |old(server.log)|)
      ensures r.Ok? ==> r.value == server.Sealed(leaf, |old(server.log)|)
    {
      if token == "" {
        return Err(NotAuthenticated);
      }
      r := server.GetProfile(leaf, token);
    }
  }

  // ----- one sync

  /** What goes out as the password: nothing without an email. */
  function LoginPassword(email: string, password: string): string {
    if email == "" then "" else password
  }

  /** What every message of a sync satisfies. */
  predicate Discreet(m: Rpc, email: string, password: string) {
    match m
    case Authenticate(e, pw) => e == email && (if e == "" then pw == "" else pw == password)
    case EnrollKeys(token, _, _) => token != ""
    case GetProfile(token) => token != ""
  }

  /** The same for a message of any account: the password goes out only beside an email, and no session
      call without a token. */
  predicate Guarded(m: Rpc, password: string) {
    match m
    case Authenticate(e, pw) => if e == "" then pw == "" else pw == password
    case EnrollKeys(token, _, _) => token != ""
    case GetProfile(token) => token != ""
  }

  ghost predicate AllGuarded(messages: seq<Rpc>, password: string) {
    forall i :: 0 <= i < |messages| ==> Guarded(messages[i], password)
  }

  lemma GuardedAppend(before: seq<Rpc>, sent: seq<Rpc>, email: string, password: string)
    requires AllGuarded(before, password) && AllDiscreet(sent, email, password)
    ensures AllGuarded(before + sent, password)
  {
    forall i | 0 <= i < |before + sent| ensures Guarded((before + sent)[i], password) {
      if i >= |before| { assert Discreet(sent[i - |before|], email, password); }
    }
  }

  ghost predicate AllDiscreet(messages: seq<Rpc>, email: string, password: string) {
    forall i :: 0 <= i < |messages| ==> Discreet(messages[i], email, password)
  }

  predicate SendsEnroll(messages: seq<Rpc>) {
    exists i :: 0 <= i < |messages| && messages[i].EnrollKeys?
  }

  /** The session token this login yields, or the empty string. */
  function SessionToken(server: Controller, leaf: string, email: string, password: string, at: nat): string {
    var session := server.login(leaf, email, if email == "" then "" else password);
    if server.Reached(at) && session.Some? then session.value.0 else ""
  }

  /** The user this login names. */
  function UserId(server: Controller, leaf: string, email: string, password: string): string {
    var session := server.login(leaf, email, if email == "" then "" else password);
    if session.Some? then session.value.1 else ""
  }

  /** The number of the last call in a log. */
  function Last(log: seq<Rpc>): nat {
    if log == [] then 0 else |log| - 1
  }

  /** Fetch, for a device with this leaf and, when its bundle carries one, its own key. The messages
      never carry a password without an email nor a session call without a token; the account key is
      enrolled exactly when the device has no key of its own and the account has none; and a success
      returns the profile the controller issued, opened with the key that opens it. */
  method FetchWith(server: Controller, leaf: string, own: Option<Bytes>, email: string, password: string, d: ClientDraw)
    returns (r: Result<Outcome, SyncError>, ghost sent: seq<Rpc>)
    requires server.Sound() && ValidClientDraw(d)
    modifies server`log, server`enrolled
    ensures server.log == old(server.log) + sent && AllDiscreet(sent, email, password)
    ensures |sent| > 0 && sent[0].Authenticate?
    ensures SendsEnroll(sent) <==>
              own.None? && old(server.enrolled).None?
              && SessionToken(server, leaf, email, password, |old(server.log)|) != ""
    ensures server.enrolled == old(server.enrolled) || (old(server.enrolled).None? && server.Keyed(password, d.private))
    ensures r.Ok? && own.None? ==> server.enrolled.Some?
    ensures Answers(server, leaf, own, password, SessionToken(server, leaf, email, password, |old(server.log)|),
                    Last(server.log), UserId(server, leaf, email, password), r)
    ensures r.Ok? ==> Delivers(server, leaf, own, password, r.value)
    ensures (NothingFails(server) && Openable(server, leaf, own, password)
             && SessionToken(server, leaf, email, password, |old(server.log)|) != "") ==> r.Ok?
    ensures (NothingFails(server) && own.None?
             && SessionToken(server, leaf, email, password, |old(server.log)|) != "") ==> server.enrolled.Some?
  {
    var c := new Client(server, leaf);
    ghost var before := server.log;
    var session;
    session, sent := Login(c, own, email, password, d);
    if session.Err? {
      NoAnswer(server, leaf, own, password, c.token, Last(server.log), UserId(server, leaf, email, password), session.error);
      return Err(session.error), sent;
    }
    ghost var first, last, at := sent, [], |server.log|;
    r, last := Retrieve(c, own, password, session.value.userId);
    LastSent(first, last, email, password);
    Joined(before, first, last);
    sent := first + last;
    SameAnswer(server, leaf, own, password, c.token, at, Last(server.log), session.value.userId, r);
    OpenableOpens(server, leaf, own, password, Last(server.log));
  }

  /** What some key opens, the controller can seal and this device opens. */
  lemma OpenableOpens(server: Controller, leaf: string, own: Option<Bytes>, password: string, at: nat)
    requires server.Sound()
    ensures Openable(server, leaf, own, password) && server.profile.Some? ==> Opening(server, leaf, own, password, at).Ok?
  {
    if Openable(server, leaf, own, password) && server.profile.Some? {
      OpenableSeals(server, leaf, own, password, at);
      var rp := server.Sealed(leaf, at);
      ReplyDelivers(server, leaf, own, password, at, rp, "");
      ReplyAnswers(server, leaf, own, password, at, rp, "");
    }
  }

  lemma NoAnswer(
      server: Controller, leaf: string, own: Option<Bytes>, password: string, token: string, at: nat, userId: string,
      error: SyncError)
    requires token == "" || !server.Reached(at)
    ensures Answers(server, leaf, own, password, token, at, userId, Err(error))
  {
  }

  lemma SameAnswer(
      server: Controller, leaf: string, own: Option<Bytes>, password: string, token: string, at: nat, last: nat,
      userId: string, r: Result<Outcome, SyncError>)
    requires Answers(server, leaf, own, password, token, at, userId, r) && (token != "" ==> last == at)
    ensures Answers(server, leaf, own, password, token, last, userId, r)
  {
  }

  /** The second half of a sync: fetch the sealed profile, recover the key, open the profile. */
  method Retrieve(c: Client, own: Option<Bytes>, password: string, userId: string)
    returns (r: Result<Outcome, SyncError>, ghost sent: seq<Rpc>)
    requires c.server.Sound()
    modifies c.server`log
    ensures c.server.log == old(c.server.log) + sent
    ensures sent == if c.token != "" then [Rpc.GetProfile(c.token)] else []
    ensures Answers(c.server, c.leaf, own, password, c.token, |old(c.server.log)|, userId, r)
    ensures r.Ok? ==> Delivers(c.server, c.leaf, own, password, r.value)
  {
    ghost var at := |c.server.log|;
    sent := if c.token != "" then [Rpc.GetProfile(c.token)] else [];
    var rp := c.GetProfile();
    if rp.Err? {
      return Err(rp.error), sent;
    }
    ReplyDelivers(c.server, c.leaf, own, password, at, rp.value, userId);
    ReplyAnswers(c.server, c.leaf, own, password, at, rp.value, userId);
    r := OpenReply(c.server.p, own, password, rp.value, userId);
  }

  lemma Joined(a: seq<Rpc>, b: seq<Rpc>, c: seq<Rpc>)
    ensures a + b + c == a + (b + c)
  {
  }

  /** The first half of a sync: authenticate and, on a first legacy device, enroll. */
  method Login(c: Client, own: Option<Bytes>, email: string, password: string, d: ClientDraw)
    returns (r: Result<AuthReply, SyncError>, ghost sent: seq<Rpc>)
    requires c.server.Sound() && ValidClientDraw(d) && c.token == ""
    modifies c, c.server`log, c.server`enrolled
    ensures c.server.log == old(c.server.log) + sent && AllDiscreet(sent, email, password)
    ensures |sent| > 0 && sent[0].Authenticate?
    ensures c.token == SessionToken(c.server, c.leaf, email, password, |old(c.server.log)|)
    ensures SendsEnroll(sent) <==> own.None? && old(c.server.enrolled).None? && c.token != ""
    ensures c.server.enrolled == old(c.server.enrolled)
            || (old(c.server.enrolled).None? && c.server.Keyed(password, d.private))
    ensures r.Ok? && own.None? ==> c.server.enrolled.Some?
    ensures r.Err? ==> c.token == "" || !c.server.Reached(Last(c.server.log))
    ensures r.Ok? ==> r.value.userId == UserId(c.server, c.leaf, email, password)
  {
    ghost var before := c.server.log;
    r := c.Authenticate(email, LoginPassword(email, password));
    sent := [Rpc.Authenticate(email, LoginPassword(email, password))];
    if r.Err? || own.Some? || r.value.keysEnrolled {
      return;
    }
    ghost var enroll;
    var ok;
    ok, enroll := FirstDevice(c, password, d);
    EnrollSent(sent, enroll, c.token, email, password);
    Joined(before, sent, enroll);
    sent := sent + enroll;
    if ok.Err? {
      r := Err(ok.error);
    }
  }

  /** Fetch: the device key is read from the bundle first, then the relay is dialled; a bundle with a
      malformed key or a relay that does not answer sends nothing. */
  method Fetch(server: Controller, b: Bundle, dials: bool, email: string, password: string, d: ClientDraw)
    returns (r: Result<Outcome, SyncError>, ghost sent: seq<Rpc>)
    requires server.Sound() && ValidClientDraw(d)
    modifies server`log, server`enrolled
    ensures server.log == old(server.log) + sent && AllDiscreet(sent, email, password)
    ensures SendsEnroll(sent) <==>
              EncryptionPrivateKey(b) == Ok(None) && dials && old(server.enrolled).None?
              && SessionToken(server, b.deviceCertPem, email, password, |old(server.log)|) != ""
    ensures EncryptionPrivateKey(b).Err? || !dials ==> sent == [] && server.enrolled == old(server.enrolled)
    ensures EncryptionPrivateKey(b).Err? ==> r == Err(BadDeviceKey(EncryptionPrivateKey(b).error))
    ensures EncryptionPrivateKey(b).Ok? && !dials ==> r == Err(DialFailed)
    ensures EncryptionPrivateKey(b).Ok? && dials ==> |sent| > 0 && sent[0].Authenticate?
    ensures EncryptionPrivateKey(b).Ok? && dials ==>
              Answers(server, b.deviceCertPem, EncryptionPrivateKey(b).value, password,
                      SessionToken(server, b.deviceCertPem, email, password, |old(server.log)|), Last(server.log),
                      UserId(server, b.deviceCertPem, email, password), r)
    ensures r.Ok? ==> EncryptionPrivateKey(b).Ok? && dials
                      && Delivers(server, b.deviceCertPem, EncryptionPrivateKey(b).value, password, r.value)
    ensures (EncryptionPrivateKey(b).Ok? && dials && NothingFails(server)
             && Openable(server, b.deviceCertPem, EncryptionPrivateKey(b).value, password)
             && SessionToken(server, b.deviceCertPem, email, password, |old(server.log)|) != "") ==> r.Ok?
  {
    sent := [];
    var own := EncryptionPrivateKey(b);
    if own.Err? {
      return Err(BadDeviceKey(own.error)), [];
    }
    if !dials {
      return Err(DialFailed), [];
    }
    r, sent := FetchWith(server, b.deviceCertPem, own.value, email, password, d);
  }

  lemma EnrollSent(sent: seq<Rpc>, enroll: seq<Rpc>, token: string, email: string, password: string)
    requires AllDiscreet(sent, email, password) && !SendsEnroll(sent)
    requires if token == "" then enroll == [] else |enroll| == 1 && enroll[0].EnrollKeys? && enroll[0].token == token
    ensures AllDiscreet(sent + enroll, email, password)
    ensures SendsEnroll(sent + enroll) <==> token != ""
  {
    if token != "" {
      assert (sent + enroll)[|sent|].EnrollKeys?;
    } else {
      assert sent + enroll == sent;
    }
  }

  lemma LastSent(sent: seq<Rpc>, last: seq<Rpc>, email: string, password: string)
    requires AllDiscreet(sent, email, password) && |last| <= 1
    requires forall i :: 0 <= i < |last| ==> last[i].GetProfile? && last[i].token != ""
    ensures AllDiscreet(sent + last, email, password)
    ensures SendsEnroll(sent + last) <==> SendsEnroll(sent)
  {
    if SendsEnroll(sent) {
      var i :| 0 <= i < |sent| && sent[i].EnrollKeys?;
      assert (sent + last)[i].EnrollKeys?;
    }
  }

  /** The first legacy device mints the account key, wraps it under the passphrase and enrolls it. */
  method FirstDevice(c: Client, password: string, d: ClientDraw)
    returns (r: Result<(), SyncError>, ghost sent: seq<Rpc>)
    requires c.server.Sound() && ValidClientDraw(d)
    modifies c.server`log, c.server`enrolled
    ensures c.server.log == old(c.server.log) + sent
    ensures if c.token == "" then sent == [] else |sent| == 1 && sent[0].EnrollKeys? && sent[0].token == c.token
    ensures r.Ok? <==> c.token != "" && c.server.Reached(|old(c.server.log)|) && old(c.server.enrolled).None?
    ensures if c.token != "" && c.server.arrives(|old(c.server.log)|) && old(c.server.enrolled).None?
            then c.server.Keyed(password, d.private) else c.server.enrolled == old(c.server.enrolled)
  {
    var public := c.server.p.x25519(d.private, c.server.p.basePoint);
    assert public.Some?;
    var wrapped := WrapPrivateKey(c.server.p, password, d.private, d.salt, d.nonce);
    WrapThenUnwrap(c.server.p, password, d.private, d.salt, d.nonce);
    sent := if c.token == "" then [] else [Rpc.EnrollKeys(c.token, public.value, wrapped)];
    r := c.EnrollKeys(public.value, wrapped);
  }

  /** The last two steps of a sync: recover the key, open the profile. */
  function OpenReply(
      p: Primitives, own: Option<Bytes>, password: string,
      rp: RemoteProfile, userId: string): Result<Outcome, SyncError>
  {
    var key :- DecryptionKey(p, own, password, rp.wrappedPrivateKey);
    var plaintext :- OpenProfile(p, rp, key);
    Ok(Outcome(userId, rp.revision, plaintext, key))
  }

  /** What the reply to call number `at` opens to: the key it is opened with and the plaintext. */
  function Opening(server: Controller, leaf: string, own: Option<Bytes>, password: string, at: nat): Result<(Bytes, Bytes), SyncError>
    reads server`enrolled, server`profile
  {
    if !server.CanSeal(leaf, at) then Err(ProfileFailed)
    else
      var rp := server.Sealed(leaf, at);
      var key :- DecryptionKey(server.p, own, password, rp.wrappedPrivateKey);
      var plaintext :- OpenProfile(server.p, rp, key);
      Ok((key, plaintext))
  }

  /** The outcome is what that reply opens to, whoever sealed it to which key: under the device's own
      key when it has one, else under the key that the passphrase unwraps. */
  ghost predicate Opened(server: Controller, leaf: string, own: Option<Bytes>, password: string, at: nat, o: Outcome)
    reads server`enrolled, server`profile
  {
    && Opening(server, leaf, own, password, at) == Ok((o.deviceKey, o.plaintext))
    && server.profile.Some? && o.revision == server.profile.value.revision
    && (own.Some? ==> o.deviceKey == own.value)
    && (own.None? ==> UnwrapPrivateKey(server.p, password, server.BlobFor(leaf)) == Ok(o.deviceKey))
    && server.CanSeal(leaf, at) && Verified(server.p, server.Sealed(leaf, at))
  }

  /** The answer to a profile call made with this token as call number `at`: a success exactly when
      the call arrives and its reply opens, and then what the reply opens to. */
  ghost predicate Answers(
      server: Controller, leaf: string, own: Option<Bytes>, password: string, token: string, at: nat, userId: string,
      r: Result<Outcome, SyncError>)
    reads server`enrolled, server`profile
  {
    && (r.Ok? <==> token != "" && server.Reached(at) && Opening(server, leaf, own, password, at).Ok?)
    && (r.Ok? ==> Opened(server, leaf, own, password, at, r.value) && r.value.userId == userId)
  }

  lemma ReplyAnswers(server: Controller, leaf: string, own: Option<Bytes>, password: string, at: nat, rp: RemoteProfile, userId: string)
    requires server.CanSeal(leaf, at) && rp == server.Sealed(leaf, at)
    ensures var r := OpenReply(server.p, own, password, rp, userId);
            && (r.Ok? <==> Opening(server, leaf, own, password, at).Ok?)
            && (r.Ok? ==> Opened(server, leaf, own, password, at, r.value) && r.value.userId == userId)
  {
    var key := DecryptionKey(server.p, own, password, rp.wrappedPrivateKey);
    if key.Ok? {
      OnlyVerifiedOpens(server.p, rp, key.value);
    }
  }

  /** This key opens what the controller now sends this device: its own registered key, or, for a
      device without one, the account key that this passphrase unwraps. */
  ghost predicate Opens(server: Controller, leaf: string, own: Option<Bytes>, password: string, key: Bytes)
    reads server`enrolled
  {
    |key| == KEY_BYTES &&
    match own
    case Some(k) => key == k && server.deviceKeys(leaf).Some? && server.deviceKeys(leaf) == server.p.x25519(k, server.p.basePoint)
    case None => server.deviceKeys(leaf).None? && server.Keyed(password, key)
  }

  /** The outcome holds the profile the controller issued and whichever key opens it. */
  ghost predicate Delivers(server: Controller, leaf: string, own: Option<Bytes>, password: string, o: Outcome)
    reads server`enrolled, server`profile
  {
    server.profile.Some? &&
    forall key :: Opens(server, leaf, own, password, key) ==>
      o.deviceKey == key && o.plaintext == server.profile.value.plaintext && o.revision == server.profile.value.revision
  }

  /** Some key opens it. After a first device's enrollment one does. */
  ghost predicate Openable(server: Controller, leaf: string, own: Option<Bytes>, password: string)
    reads server`enrolled
  {
    exists key :: Opens(server, leaf, own, password, key)
  }

  /** Every call arrives and a profile was issued. */
  ghost predicate NothingFails(server: Controller)
    reads server`profile
  {
    (forall n :: server.Reached(n)) && server.profile.Some?
  }

  lemma ReplyOpens(
      server: Controller, leaf: string, own: Option<Bytes>, password: string,
      key: Bytes, at: nat, rp: RemoteProfile, userId: string)
    requires server.Sound() && Opens(server, leaf, own, password, key)
    requires server.CanSeal(leaf, at) && rp == server.Sealed(leaf, at)
    ensures OpenReply(server.p, own, password, rp, userId)
            == Ok(Outcome(userId, server.profile.value.revision, server.profile.value.plaintext, key))
  {
    SealedProfileOpens(server.p, server.profile.value.plaintext, key, server.signer, server.draws(at),
                       rp.revision, rp.wrappedPrivateKey);
    assert server.Recipient(leaf) == server.p.x25519(key, server.p.basePoint);
    if own.None? {
      UnwrapsNotEmpty(server.p, password, server.enrolled.value.wrapped);
    }
  }

  lemma ReplyDelivers(
      server: Controller, leaf: string, own: Option<Bytes>,
      password: string, at: nat, rp: RemoteProfile, userId: string)
    requires server.Sound() && server.CanSeal(leaf, at) && rp == server.Sealed(leaf, at)
    ensures var r := OpenReply(server.p, own, password, rp, userId);
            && (r.Ok? ==> Delivers(server, leaf, own, password, r.value))
            && (Openable(server, leaf, own, password) ==> r.Ok?)
  {
    forall key | Opens(server, leaf, own, password, key)
      ensures OpenReply(server.p, own, password, rp, userId)
              == Ok(Outcome(userId, server.profile.value.revision, server.profile.value.plaintext, key))
    {
      ReplyOpens(server, leaf, own, password, key, at, rp, userId);
    }
  }

  /** What some key opens the controller can seal. */
  lemma OpenableSeals(server: Controller, leaf: string, own: Option<Bytes>, password: string, at: nat)
    requires server.Sound() && Openable(server, leaf, own, password) && server.profile.Some?
    ensures server.CanSeal(leaf, at)
  {
    var key :| Opens(server, leaf, own, password, key);
    SealThenOpen(server.p, server.profile.value.plaintext, key, server.signer, server.draws(at));
    assert server.Recipient(leaf) == server.p.x25519(key, server.p.basePoint);
  }

  lemma UnwrapsNotEmpty(p: Primitives, password: string, blob: Bytes)
    requires UnwrapPrivateKey(p, password, blob).Ok?
    ensures blob != []
  {
  }

  // ----- every run of syncs

  /** One device's attempt: its leaf, its own key when its bundle carries one, the login it tries. */
  datatype Attempt = Attempt(leaf: string, own: Option<Bytes>, email: string, draw: ClientDraw)

  /** A device of the account-sync kind: no key of its own, here or at the controller. */
  predicate Legacy(server: Controller, a: Attempt) {
    a.own.None? && server.deviceKeys(a.leaf).None?
  }

  /** A legacy device that succeeded holds the account key and the issued profile. */
  ghost predicate Agrees(
      legacy: bool, enrolled: Option<Enrolled>, profile: Option<Issued>,
      r: Result<Outcome, SyncError>, accountKey: Bytes)
  {
    r.Ok? && legacy ==>
      enrolled.Some? && profile.Some? && r.value.deviceKey == accountKey && r.value.plaintext == profile.value.plaintext
  }

  /** The controller gives this attempt a session token. */
  predicate Admits(server: Controller, a: Attempt, password: string) {
    var session := server.login(a.leaf, a.email, if a.email == "" then "" else password);
    session.Some? && session.value.0 != ""
  }

  /** When nothing fails, an admitted legacy device succeeds. */
  ghost predicate Succeeds(server: Controller, a: Attempt, password: string, r: Result<Outcome, SyncError>)
    reads server`profile
  {
    NothingFails(server) && Legacy(server, a) && Admits(server, a, password) ==> r.Ok?
  }

  ghost predicate AllAgree(
      server: Controller, attempts: seq<Attempt>, enrolled: Option<Enrolled>, profile: Option<Issued>,
      results: seq<Result<Outcome, SyncError>>, accountKey: Bytes)
  {
    |results| <= |attempts| &&
    forall i :: 0 <= i < |results| ==> Agrees(Legacy(server, attempts[i]), enrolled, profile, results[i], accountKey)
  }

  method SyncOne(server: Controller, a: Attempt, password: string, ghost accountKey: Bytes)
    returns (r: Result<Outcome, SyncError>, ghost newKey: Bytes, ghost sent: seq<Rpc>)
    requires server.Sound() && ValidClientDraw(a.draw)
    requires server.enrolled.Some? ==> server.Keyed(password, accountKey)
    modifies server`log, server`enrolled
    ensures server.enrolled.Some? ==> server.Keyed(password, newKey)
    ensures old(server.enrolled).Some? ==> server.enrolled == old(server.enrolled) && newKey == accountKey
    ensures Agrees(Legacy(server, a), server.enrolled, server.profile, r, newKey)
    ensures Succeeds(server, a, password, r)
    ensures server.log == old(server.log) + sent && AllDiscreet(sent, a.email, password)
  {
    r, sent := FetchWith(server, a.leaf, a.own, a.email, password, a.draw);
    newKey := if old(server.enrolled).Some? then accountKey else a.draw.private;
    if Legacy(server, a) && server.enrolled.Some? {
      assert Opens(server, a.leaf, a.own, password, newKey);
    }
  }

  lemma AgreeStep(
      server: Controller, attempts: seq<Attempt>, profile: Option<Issued>, results: seq<Result<Outcome, SyncError>>,
      before: Option<Enrolled>, key: Bytes, after: Option<Enrolled>, newKey: Bytes, r: Result<Outcome, SyncError>)
    requires |results| < |attempts| && AllAgree(server, attempts, before, profile, results, key)
    requires before.Some? ==> after == before && newKey == key
    requires Agrees(Legacy(server, attempts[|results|]), after, profile, r, newKey)
    ensures AllAgree(server, attempts, after, profile, results + [r], newKey)
  {
  }

  /** Any number of devices sync one after another with one passphrase against a controller that
      starts without account keys. Every legacy device that succeeds recovers the same private key
      and opens the profile the controller issued; when no call fails, every legacy device that is
      given a session does succeed. In all those runs the passphrase goes out only beside an email. */
  method SyncAll(server: Controller, attempts: seq<Attempt>, password: string)
    returns (results: seq<Result<Outcome, SyncError>>, ghost accountKey: Bytes, ghost sent: seq<Rpc>)
    requires server.Sound() && server.enrolled.None?
    requires forall i :: 0 <= i < |attempts| ==> ValidClientDraw(attempts[i].draw)
    modifies server`log, server`enrolled
    ensures |results| == |attempts|
    ensures server.enrolled.Some? ==> server.Keyed(password, accountKey)
    ensures AllAgree(server, attempts, server.enrolled, server.profile, results, accountKey)
    ensures forall i :: 0 <= i < |attempts| ==> Succeeds(server, attempts[i], password, results[i])
    ensures server.log == old(server.log) + sent && AllGuarded(sent, password)
  {
    results, accountKey, sent := [], [], [];
    for n := 0 to |attempts|
      invariant |results| == n
      invariant server.enrolled.Some? ==> server.Keyed(password, accountKey)
      invariant AllAgree(server, attempts, server.enrolled, server.profile, results, accountKey)
      invariant forall i :: 0 <= i < n ==> Succeeds(server, attempts[i], password, results[i])
      invariant server.log == old(server.log) + sent && AllGuarded(sent, password)
    {
      ghost var before := server.enrolled;
      var r, key, messages := SyncOne(server, attempts[n], password, accountKey);
      AgreeStep(server, attempts, server.profile, results, before, accountKey, server.enrolled, key, r);
      GuardedAppend(sent, messages, attempts[n].email, password);
      Joined(old(server.log), sent, messages);
      results, accountKey, sent := results + [r], key, sent + messages;
    }
  }
}
