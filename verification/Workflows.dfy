/** The flows a user sees, across the sync protocol and the store: syncing and storing the account's
    profile, importing a file, and opening what is stored under a name. */
module Workflows {
  import opened Wrappers
  import opened Base64
  import opened Json
  import opened JsonRecords
  import opened Envelopes
  import opened StoreNames
  import opened Store
  import Crypto
  import DeviceIds
  import S = Sync

  datatype ReadError = NoSuchProfile | Unreadable(open: OpenError)

  /** What a store holds under a name, opened and decoded. */
  function Reading<P>(files: Files, name: string, p: Crypto.Primitives, opts: Options, decode: Decoder<P>): Result<P, ReadError> {
    match Stored(files, name)
    case None => Err(NoSuchProfile)
    case Some(data) =>
      match ParseFile(p, data, opts, decode)
      case Ok(profile) => Ok(profile)
      case Err(e) => Err(Unreadable(e))
  }

  /** The profile a document gives, or the error of decoding it. */
  function Denotes<P>(doc: Option<Json>, decode: Decoder<P>): Result<P, ReadError> {
    match Decoded(doc, decode)
    case Ok(profile) => Ok(profile)
    case Err(e) => Err(Unreadable(e))
  }

  /** The first step of a connect: read the raw file, then parse it. */
  method Open<P>(store: ProfileStore, name: string, p: Crypto.Primitives, opts: Options, decode: Decoder<P>)
    returns (r: Result<P, ReadError>)
    ensures r == Reading(store.files, name, p, opts, decode)
  {
    var data := store.Raw(name);
    if data.Err? {
      return Err(NoSuchProfile);
    }
    var profile := ParseFile(p, data.value, opts, decode);
    return if profile.Ok? then Ok(profile.value) else Err(Unreadable(profile.error));
  }

  // ----- import, then open

  /** A file that imports opens under the returned name to exactly what the file itself holds. */
  method ImportThenOpen<P>(
      store: ProfileStore, path: string, data: Bytes, p: Crypto.Primitives, opts: Options, decode: Decoder<P>)
    returns (imported: Result<string, StoreError>, r: Result<P, ReadError>)
    modifies store
    ensures store.files == After(old(store.files), Import(path, data))
    ensures imported.Ok? <==> Header(data).Some?
    ensures imported.Ok? ==>
              r == match ParseFile(p, data, opts, decode) case Ok(profile) => Ok(profile) case Err(e) => Err(Unreadable(e))
  {
    imported := store.ImportBundle(path, data);
    if imported.Err? {
      return imported, Err(NoSuchProfile);
    }
    r := Open(store, imported.value, p, opts, decode);
  }

  // ----- sync, then open

  datatype SyncAndStoreError = BadIdentity(parse: DeviceIds.ParseError) | NotFetched(sync: S.SyncError) | NotStored(store: StoreError)

  /** Some key this device has or recovers opens what the controller now sends it. */
  ghost predicate CanOpen(server: S.Controller, b: DeviceIds.Bundle, password: string)
    reads server`enrolled
  {
    DeviceIds.EncryptionPrivateKey(b).Ok?
    && S.Openable(server, b.deviceCertPem, DeviceIds.EncryptionPrivateKey(b).value, password)
  }

  /** What was fetched is the document the controller issued, as far as the device can open that. */
  ghost predicate FetchedIssued(server: S.Controller, b: DeviceIds.Bundle, password: string, fetched: Option<Bytes>)
    reads server`enrolled, server`profile
  {
    fetched.Some? && CanOpen(server, b, password) ==>
      server.profile.Some? && fetched == Some(server.profile.value.plaintext)
  }

  /** Nothing stands in the way of this fetch, which began with call number `at`. */
  ghost predicate Unhindered(server: S.Controller, b: DeviceIds.Bundle, dials: bool, email: string, password: string, at: nat)
    reads server`enrolled, server`profile
  {
    dials && S.NothingFails(server) && CanOpen(server, b, password)
    && S.SessionToken(server, b.deviceCertPem, email, password, at) != ""
  }

  /** The fetch of a sync, as the plaintext it hands on. */
  method FetchPlaintext(
      server: S.Controller, b: DeviceIds.Bundle, dials: bool, email: string, password: string, d: S.ClientDraw)
    returns (r: Result<Bytes, S.SyncError>)
    requires server.Sound() && S.ValidClientDraw(d)
    modifies server`log, server`enrolled
    ensures FetchedIssued(server, b, password, if r.Ok? then Some(r.value) else None)
    ensures Unhindered(server, b, dials, email, password, |old(server.log)|) ==> r.Ok?
  {
    var outcome, _ := S.Fetch(server, b, dials, email, password, d);
    if outcome.Err? {
      return Err(outcome.error);
    }
    return Ok(outcome.value.plaintext);
  }

  /** SyncAndStore: parse the identity, fetch, replace the cloud set. A bad identity or a failed fetch
      leaves the store as it was; a success stores what was fetched under the fresh name. */
  method SyncAndStore(
      store: ProfileStore, server: S.Controller, pharosid: Bytes, dials: bool, email: string, password: string,
      d: S.ClientDraw, marker: Bytes)
    returns (r: Result<string, SyncAndStoreError>, ghost fetched: Option<Bytes>)
    requires server.Sound() && S.ValidClientDraw(d)
    modifies store, server`log, server`enrolled
    ensures fetched.None? ==> r.Err? && store.files == old(store.files)
    ensures DeviceIds.Parse(pharosid).Err? ==> fetched == None && server.log == old(server.log)
    ensures fetched.Some? ==>
              var b := DeviceIds.Parse(pharosid);
              && b.Ok? && FetchedIssued(server, b.value, password, fetched)
              && store.files == After(old(store.files), Op.Sync(b.value.alias, email, fetched, marker, pharosid))
              && (r.Ok? <==> Wrapped(fetched.value).Some?)
              && (r.Ok? ==> r.value == SyncName(b.value.alias, email))
    ensures (DeviceIds.Parse(pharosid).Ok?
             && Unhindered(server, DeviceIds.Parse(pharosid).value, dials, email, password, |old(server.log)|)) ==> fetched.Some?
  {
    fetched := None;
    var b := DeviceIds.Parse(pharosid);
    if b.Err? {
      return Err(BadIdentity(b.error)), None;
    }
    var plaintext := FetchPlaintext(server, b.value, dials, email, password, d);
    if plaintext.Err? {
      return Err(NotFetched(plaintext.error)), None;
    }
    fetched := Some(plaintext.value);
    var stored := store.SyncBundle(b.value.alias, email, Some(plaintext.value), marker, pharosid);
    return if stored.Ok? then Ok(stored.value) else Err(NotStored(stored.error)), fetched;
  }

  /** From the controller's document to the profile that is opened: after a successful sync, opening
      the fresh name gives what decoding the fetched document gives, and that document is the one the
      controller issued when a key of this device opens it. A sync that nothing stands in the way of
      does succeed when the issued plaintext is empty or a JSON document. */
  method SyncThenOpen<P>(
      store: ProfileStore, server: S.Controller, pharosid: Bytes, dials: bool, email: string, password: string,
      d: S.ClientDraw, marker: Bytes, opts: Options, decode: Decoder<P>)
    returns (synced: Result<string, SyncAndStoreError>, r: Result<P, ReadError>, ghost fetched: Option<Bytes>)
    requires server.Sound() && S.ValidClientDraw(d)
    modifies store, server`log, server`enrolled
    ensures synced.Ok? ==>
              var b := DeviceIds.Parse(pharosid);
              && b.Ok? && fetched.Some? && r == Denotes(Fetched(fetched.value), decode)
              && (CanOpen(server, b.value, password) ==>
                    server.profile.Some? && r == Denotes(Fetched(server.profile.value.plaintext), decode))
    ensures (DeviceIds.Parse(pharosid).Ok?
             && Unhindered(server, DeviceIds.Parse(pharosid).value, dials, email, password, |old(server.log)|)) ==>
              server.profile.Some? && (synced.Ok? <==> Wrapped(server.profile.value.plaintext).Some?)
  {
    synced, fetched := SyncAndStore(store, server, pharosid, dials, email, password, d, marker);
    if synced.Err? {
      return synced, Err(NoSuchProfile), fetched;
    }
    ghost var op := Op.Sync(DeviceIds.Parse(pharosid).value.alias, email, fetched, marker, pharosid);
    SyncedProfileReads(old(store.files), op, server.p, opts, decode);
    r := Open(store, synced.value, server.p, opts, decode);
  }
}
