/** The on-device profile store: imported bundles beside one replace-all cloud set, which a sync
    replaces and a logout removes. */
module Store {
  import opened Wrappers
  import opened Text
  import opened Base64
  import opened StoreNames
  import opened Envelopes
  import opened JsonRecords
  import opened Json
  import opened Utf8
  import Crypto

  type Files = map<string, Bytes>

  // ----- the cloud set

  /** The bundles that carry a `.synced` marker. */
  function Cloud(files: Files): set<string> {
    set f | f in files && HasSuffix(f, SYNCED) :: TrimSuffix(f, SYNCED)
  }

  function Sidecars(bases: set<string>): set<string> {
    set b, s | b in bases && s in SIDECARS :: b + s
  }

  /** The store without its cloud set and without that set's sidecars. */
  function Purged(files: Files): Files {
    files - Sidecars(Cloud(files))
  }

  /** The files of the store after a sync that fetched, wrapped and stored a profile. */
  function Synced(files: Files, name: string, env: Bytes, marker: Bytes, pharosid: Bytes): Files {
    Purged(files)[ProfilePath(name) := env][name + SYNCED := marker][name + IDENTITY := pharosid]
  }

  function Removed(files: Files, name: string): Files {
    files - {name + PROFILE, name + SYNCED, name + IDENTITY}
  }

  lemma CloudIs(files: Files, b: string)
    ensures b in Cloud(files) <==> b + SYNCED in files
  {
    SuffixCut(b, SYNCED);
    if b in Cloud(files) {
      var f :| f in files && HasSuffix(f, SYNCED) && TrimSuffix(f, SYNCED) == b;
      assert f == b + SYNCED;
    }
  }

  /** A file stays in the purged store exactly when it is no sidecar of a marked bundle. */
  lemma PurgedIs(files: Files, b: string, s: string)
    requires s in SIDECARS
    ensures b + s in Purged(files) <==> b + s in files && b !in Cloud(files)
    ensures b + s in Purged(files) ==> Purged(files)[b + s] == files[b + s]
  {
    if b + s in Sidecars(Cloud(files)) {
      var b', s' :| b' in Cloud(files) && s' in SIDECARS && b' + s' == b + s;
      SidecarUnique(b, s, b', s');
    }
    if b in Cloud(files) {
      assert b + s in Sidecars(Cloud(files));
    }
  }

  lemma PurgedCloud(files: Files)
    ensures Cloud(Purged(files)) == {}
  {
    forall b | b in Cloud(Purged(files)) ensures false {
      CloudIs(Purged(files), b);
      PurgedIs(files, b, SYNCED);
      CloudIs(files, b);
    }
  }

  // ----- what a store keeps

  /** At most one marker, and every marker has its profile and its identity beside it. */
  ghost predicate Inv(files: Files) {
    && (forall b, c :: b in Cloud(files) && c in Cloud(files) ==> b == c)
    && (forall b :: b in Cloud(files) ==> b + PROFILE in files && b + IDENTITY in files)
  }

  lemma SyncedCloud(files: Files, name: string, env: Bytes, marker: Bytes, pharosid: Bytes)
    ensures Cloud(Synced(files, name, env, marker, pharosid)) == {name}
  {
    var after := Synced(files, name, env, marker, pharosid);
    PurgedCloud(files);
    forall b ensures b in Cloud(after) <==> b == name {
      CloudIs(after, b);
      CloudIs(Purged(files), b);
      SuffixIs(TrimSuffix(BaseName(name), PROFILE), PROFILE, SYNCED);
      SuffixIs(name, IDENTITY, SYNCED);
      SuffixIs(b, SYNCED, SYNCED);
      if b + SYNCED == name + SYNCED { SidecarUnique(b, SYNCED, name, SYNCED); }
    }
  }

  /** After a sync the cloud set is exactly the fresh bundle. The store keeps its invariant exactly
      when the fresh name does not end in ".pharos", or its doubled profile file was already there:
      the marker and identity paths keep a suffix that the profile path strips. */
  lemma SyncKeepsInv(files: Files, name: string, env: Bytes, marker: Bytes, pharosid: Bytes)
    requires name != "" && '/' !in name
    ensures Cloud(Synced(files, name, env, marker, pharosid)) == {name}
    ensures Inv(Synced(files, name, env, marker, pharosid)) <==>
            !HasSuffix(name, PROFILE) || name + PROFILE in Purged(files)
  {
    SyncedCloud(files, name, env, marker, pharosid);
    FreshProfileThere(files, name, env, marker, pharosid);
  }

  lemma FreshProfilePath(name: string)
    requires name != "" && '/' !in name
    ensures ProfilePath(name) == if HasSuffix(name, PROFILE) then name else name + PROFILE
    ensures name + PROFILE != name + SYNCED && name + PROFILE != name + IDENTITY && name + PROFILE != name
  {
    BaseNamePlain(name);
    if name + PROFILE == name + SYNCED { SidecarUnique(name, PROFILE, name, SYNCED); }
    if name + PROFILE == name + IDENTITY { SidecarUnique(name, PROFILE, name, IDENTITY); }
    assert |name + PROFILE| != |name|;
  }

  lemma FreshProfileThere(files: Files, name: string, env: Bytes, marker: Bytes, pharosid: Bytes)
    requires name != "" && '/' !in name
    ensures var after := Synced(files, name, env, marker, pharosid);
            && name + IDENTITY in after
            && (name + PROFILE in after <==> !HasSuffix(name, PROFILE) || name + PROFILE in Purged(files))
  {
    FreshProfilePath(name);
    var after := Synced(files, name, env, marker, pharosid);
    assert after.Keys == Purged(files).Keys + {ProfilePath(name), name + SYNCED, name + IDENTITY};
  }

  lemma ImportKeepsInv(files: Files, name: string, data: Bytes)
    requires Inv(files)
    ensures Inv(files[ProfilePath(name) := data]) && Cloud(files[ProfilePath(name) := data]) == Cloud(files)
  {
    var after := files[ProfilePath(name) := data];
    SuffixIs(TrimSuffix(BaseName(name), PROFILE), PROFILE, SYNCED);
    forall b ensures b in Cloud(after) <==> b in Cloud(files) {
      CloudIs(after, b);
      CloudIs(files, b);
      SuffixIs(b, SYNCED, SYNCED);
    }
  }

  lemma PurgeKeepsInv(files: Files)
    ensures Inv(Purged(files)) && Cloud(Purged(files)) == {}
  {
    PurgedCloud(files);
  }

  lemma RemoveKeepsInv(files: Files, name: string)
    requires Inv(files)
    ensures Inv(Removed(files, name)) && Cloud(Removed(files, name)) == Cloud(files) - {name}
  {
    var after := Removed(files, name);
    forall b ensures b in Cloud(after) <==> b in Cloud(files) - {name} {
      CloudIs(after, b);
      CloudIs(files, b);
      SidecarRemoved(name, b, SYNCED);
    }
    forall b | b in Cloud(after) ensures b + PROFILE in after && b + IDENTITY in after {
      SidecarRemoved(name, b, PROFILE);
      SidecarRemoved(name, b, IDENTITY);
    }
  }

  lemma SidecarRemoved(name: string, b: string, s: string)
    requires s in SIDECARS && s != DISABLED
    ensures b + s in {name + PROFILE, name + SYNCED, name + IDENTITY} <==> b == name
  {
    if b + s == name + PROFILE { SidecarUnique(b, s, name, PROFILE); }
    if b + s == name + SYNCED { SidecarUnique(b, s, name, SYNCED); }
    if b + s == name + IDENTITY { SidecarUnique(b, s, name, IDENTITY); }
  }

  // ----- every sequence of operations

  /** The file a sync stores for what it fetched; an empty plaintext arrives as nil. */
  function Wrapped(plaintext: Bytes): Option<Bytes> {
    WrapPlaintext(Crypto.Handed(plaintext))
  }

  /** The document a fetched plaintext denotes: an empty one is null. */
  function Fetched(plaintext: Bytes): Option<Json> {
    Denoted(Crypto.Handed(plaintext))
  }

  /** A sync that did not fetch, that fetched bytes that are not a profile document, or that stored
      the wrapped profile. */
  datatype Op =
    | Import(path: string, data: Bytes)
    | Sync(alias: string, email: string, fetched: Option<Bytes>, marker: Bytes, pharosid: Bytes)
    | Logout
    | Remove(name: string)

  function After(files: Files, op: Op): Files {
    match op
    case Import(path, data) =>
      if Header(data).Some? then files[ProfilePath(ImportName(path)) := data] else files
    case Sync(alias, email, fetched, marker, pharosid) =>
      (match fetched
       case None => files
       case Some(plaintext) =>
         match Wrapped(plaintext)
         case None => Purged(files)
         case Some(env) => Synced(files, SyncName(alias, email), env, marker, pharosid))
    case Logout => Purged(files)
    case Remove(name) => Removed(files, name)
  }

  function AfterAll(files: Files, ops: seq<Op>): Files {
    if ops == [] then files else After(AfterAll(files, ops[..|ops| - 1]), ops[|ops| - 1])
  }

  ghost predicate PlainSync(op: Op) {
    op.Sync? ==> !HasSuffix(SyncName(op.alias, op.email), PROFILE)
  }

  /** From an empty store, whatever is imported, synced, logged out and removed in whatever order,
      at most one marker exists and every marker has its profile and identity, as long as no bundle
      is synced under a name ending in ".pharos". */
  lemma {:induction false} AllOpsKeepInv(ops: seq<Op>)
    requires forall i :: 0 <= i < |ops| ==> PlainSync(ops[i])
    ensures Inv(AfterAll(map[], ops))
  {
    if ops != [] {
      var n := |ops| - 1;
      AllOpsKeepInv(ops[..n]);
      var files := AfterAll(map[], ops[..n]);
      match ops[n]
      case Import(path, data) => ImportKeepsInv(files, ImportName(path), data);
      case Sync(alias, email, fetched, marker, pharosid) =>
        assert PlainSync(ops[n]);
        SanitizedName(FirstNonEmpty(alias, email, "account"));
        PurgeKeepsInv(files);
        if fetched.Some? && Wrapped(fetched.value).Some? {
          SyncKeepsInv(files, SyncName(alias, email), Wrapped(fetched.value).value, marker, pharosid);
        }
      case Logout => PurgeKeepsInv(files);
      case Remove(name) => RemoveKeepsInv(files, name);
    }
  }

  ghost predicate Kept(before: Files, after: Files, f: string) {
    (f in after <==> f in before) && (f in before ==> after[f] == before[f])
  }

  /** The bundle's profile and all its sidecars are as they were, byte for byte. */
  ghost predicate BundleKept(before: Files, after: Files, b: string) {
    forall s :: s in SIDECARS ==> Kept(before, after, b + s)
  }

  /** A sync that stores a profile. */
  predicate Stores(op: Op) {
    op.Sync? && op.fetched.Some? && Wrapped(op.fetched.value).Some?
  }

  /** The bundle is the fresh one, or its profile is the file that the fresh profile is stored in
      because the fresh name is its name with ".pharos", and that file did not hold the same bytes. */
  predicate Overwritten(files: Files, op: Op, b: string)
    requires Stores(op)
  {
    var name := SyncName(op.alias, op.email);
    b == name
    || (name == b + PROFILE && !(name in files && files[name] == Wrapped(op.fetched.value).value))
  }

  /** A sync or a logout keeps an unmarked bundle exactly when it stores nothing or does not store
      over it. */
  lemma UnmarkedUntouched(files: Files, op: Op, b: string)
    requires (op.Sync? || op.Logout?) && b !in Cloud(files)
    ensures BundleKept(files, After(files, op), b) <==> !(Stores(op) && Overwritten(files, op, b))
  {
    forall s | s in SIDECARS ensures Kept(files, Purged(files), b + s) {
      PurgedIs(files, b, s);
    }
    if Stores(op) {
      SanitizedName(FirstNonEmpty(op.alias, op.email, "account"));
      SyncedKeeps(files, SyncName(op.alias, op.email), Wrapped(op.fetched.value).value, op.marker, op.pharosid, b);
    }
  }

  lemma SyncedKeeps(files: Files, name: string, env: Bytes, marker: Bytes, pharosid: Bytes, b: string)
    requires name != "" && '/' !in name && b !in Cloud(files) && BundleKept(files, Purged(files), b)
    ensures BundleKept(files, Synced(files, name, env, marker, pharosid), b)
            <==> b != name && (name == b + PROFILE ==> name in files && files[name] == env)
  {
    var after := Synced(files, name, env, marker, pharosid);
    if b == name {
      MarkerAppears(files, name, env, marker, pharosid);
    } else {
      ProfileAlone(name, b);
      forall s | s in SIDECARS && s != PROFILE ensures Kept(files, after, b + s) {
        OthersSynced(files, name, env, marker, pharosid, b, s);
        assert Kept(files, Purged(files), b + s);
      }
      OthersSynced(files, name, env, marker, pharosid, b, PROFILE);
      assert Kept(files, Purged(files), b + PROFILE);
    }
  }

  lemma MarkerAppears(files: Files, name: string, env: Bytes, marker: Bytes, pharosid: Bytes)
    requires name !in Cloud(files)
    ensures !Kept(files, Synced(files, name, env, marker, pharosid), name + SYNCED)
  {
    CloudIs(files, name);
  }

  /** Another bundle's file is the fresh profile only when it is a profile and the fresh name is its
      bundle's name with the suffix. */
  lemma ProfileAlone(name: string, b: string)
    requires name != "" && '/' !in name && b != name
    ensures b + PROFILE == ProfilePath(name) <==> name == b + PROFILE
  {
    FreshProfilePath(name);
    if b + PROFILE == name + PROFILE { SidecarUnique(b, PROFILE, name, PROFILE); }
    SuffixCut(b, PROFILE);
  }

  lemma OthersSynced(files: Files, name: string, env: Bytes, marker: Bytes, pharosid: Bytes, b: string, s: string)
    requires name != "" && '/' !in name && s in SIDECARS && b != name
    ensures var after := Synced(files, name, env, marker, pharosid);
            if b + s == ProfilePath(name) then s == PROFILE && b + s in after && after[b + s] == env
            else Kept(Purged(files), after, b + s)
  {
    SuffixIs(TrimSuffix(BaseName(name), PROFILE), PROFILE, s);
    SuffixCut(b, s);
    OtherSidecar(name, SYNCED, b, s);
    OtherSidecar(name, IDENTITY, b, s);
  }

  lemma OtherSidecar(name: string, suffix: string, b: string, s: string)
    requires suffix in SIDECARS && s in SIDECARS && b != name
    ensures b + s != name + suffix
  {
    if b + s == name + suffix { SidecarUnique(b, s, name, suffix); }
  }

  // ----- what is read back

  /** The bytes stored under a name. */
  function Stored(files: Files, name: string): Option<Bytes> {
    if ProfilePath(name) in files then Some(files[ProfilePath(name)]) else None
  }

  /** Two plain names lead to the same stored file exactly when they differ at most in a ".pharos"
      at the end. */
  lemma SameStored(a: string, b: string)
    requires a != "" && '/' !in a && b != "" && '/' !in b
    ensures ProfilePath(a) == ProfilePath(b) <==> TrimSuffix(a, PROFILE) == TrimSuffix(b, PROFILE)
  {
    BaseNamePlain(a);
    BaseNamePlain(b);
    SuffixCut(TrimSuffix(a, PROFILE), PROFILE);
    SuffixCut(TrimSuffix(b, PROFILE), PROFILE);
  }

  /** An imported file is read back byte for byte under the name the import returned, and nothing
      stored under another name changes. */
  lemma ImportedReads(files: Files, path: string, data: Bytes, other: string)
    requires Header(data).Some? && other != "" && '/' !in other
    ensures var after := After(files, Import(path, data)); var name := ImportName(path);
            && Stored(after, name) == Some(data)
            && (TrimSuffix(other, PROFILE) != TrimSuffix(name, PROFILE) ==> Stored(after, other) == Stored(files, other))
  {
    SanitizedName(TrimSuffix(BaseName(path), PROFILE));
    SameStored(other, ImportName(path));
  }

  /** What a sync stored is read back under the fresh name as a profile file, and it parses to the
      profile that the fetched document denotes. */
  lemma SyncedProfileReads<P>(files: Files, op: Op, p: Crypto.Primitives, opts: Options, decode: Decoder<P>)
    requires op.Sync? && op.fetched.Some? && Wrapped(op.fetched.value).Some?
    ensures var stored := Stored(After(files, op), SyncName(op.alias, op.email));
            stored.Some? && ParseFile(p, stored.value, opts, decode) == Decoded(Fetched(op.fetched.value), decode)
  {
    var name := SyncName(op.alias, op.email);
    SanitizedName(FirstNonEmpty(op.alias, op.email, "account"));
    WrapThenParse(p, Crypto.Handed(op.fetched.value), opts, decode);
    SyncedStores(files, name, Wrapped(op.fetched.value).value, op.marker, op.pharosid);
  }

  lemma SyncedStores(files: Files, name: string, env: Bytes, marker: Bytes, pharosid: Bytes)
    ensures Stored(Synced(files, name, env, marker, pharosid), name) == Some(env)
  {
    SuffixIs(TrimSuffix(BaseName(name), PROFILE), PROFILE, SYNCED);
    SuffixIs(TrimSuffix(BaseName(name), PROFILE), PROFILE, IDENTITY);
    SuffixIs(name, SYNCED, SYNCED);
    SuffixIs(name, IDENTITY, IDENTITY);
  }

  /** The three files that a sync writes, under the fresh name, and that it writes nothing else. */
  lemma SyncedFiles(files: Files, op: Op, f: string)
    requires Stores(op)
    ensures var after := After(files, op); var name := SyncName(op.alias, op.email);
            && name + ".synced" in after && after[name + ".synced"] == op.marker
            && name + ".pharosid" in after && after[name + ".pharosid"] == op.pharosid
            && ProfilePath(name) in after && after[ProfilePath(name)] == Wrapped(op.fetched.value).value
            && (f != name + ".synced" && f != name + ".pharosid" && f != ProfilePath(name) ==> Kept(Purged(files), after, f))
  {
    var name := SyncName(op.alias, op.email);
    SyncedStores(files, name, Wrapped(op.fetched.value).value, op.marker, op.pharosid);
    if name + SYNCED == name + IDENTITY { SidecarUnique(name, SYNCED, name, IDENTITY); }
  }

  /** What a purge takes: the profile and the three sidecars of every bundle with a marker, and nothing
      else. */
  lemma PurgeTakes(files: Files, f: string)
    ensures f in Purged(files) <==>
            f in files && !(exists b :: b + ".synced" in files && IsFileOf(f, b))
    ensures f in Purged(files) ==> Purged(files)[f] == files[f]
  {
    if f in Sidecars(Cloud(files)) {
      var b, s :| b in Cloud(files) && s in SIDECARS && b + s == f;
      CloudIs(files, b);
      assert b + ".synced" in files && IsFileOf(f, b);
    }
    if b :| b + ".synced" in files && IsFileOf(f, b) {
      CloudIs(files, b);
      assert exists s :: s in SIDECARS && f == b + s;
    }
  }

  /** The profile or a sidecar of this bundle. */
  predicate IsFileOf(f: string, b: string) {
    f == b + ".pharos" || f == b + ".synced" || f == b + ".disabled" || f == b + ".pharosid"
  }

  /** A removal takes the profile, the marker and the identity, and leaves every other file, the
      disabled mark among them. */
  lemma RemoveTakes(files: Files, name: string, f: string)
    ensures var after := After(files, Remove(name));
            if f == name + ".pharos" || f == name + ".synced" || f == name + ".pharosid" then f !in after
            else Kept(files, after, f)
  {
  }

  // ----- where a sync does less than one might expect

  lemma WitnessNames()
    ensures SanitizeName("a.pharos") == "a.pharos" && SanitizeName("a") == "a" && SanitizeName("home") == "home"
  {
    SafeFixed("a.pharos");
    SafeFixed("a");
    SafeFixed("home");
  }

  /** A sync of an empty plaintext under a name that sanitizing leaves alone. */
  lemma SyncEmpty(files: Files, name: string, marker: Bytes, pharosid: Bytes)
    requires name != "" && SanitizeName(name) == name
    ensures Wrapped([]).Some?
    ensures After(files, Sync(name, "", Some([]), marker, pharosid))
            == Synced(files, name, Wrapped([]).value, marker, pharosid)
  {
  }

  lemma DoubledSynced(b: string, env: Bytes, marker: Bytes, pharosid: Bytes)
    requires '/' !in b
    ensures var files := Synced(map[], b + PROFILE, env, marker, pharosid);
            !Inv(files) && Cloud(files) == {b + PROFILE} && b + PROFILE in Purged(files)
  {
    var name := b + PROFILE;
    var files := Synced(map[], name, env, marker, pharosid);
    SuffixCut(b, PROFILE);
    assert Purged(map[]) == map[];
    SyncKeepsInv(map[], name, env, marker, pharosid);
    BaseNamePlain(name);
    assert |name| > |b|;
    PurgedIs(files, b, PROFILE);
    CloudIs(files, b);
  }

  /** A first sync under any name ending in ".pharos" leaves a marker without its profile, and a logout
      leaves that profile behind. */
  lemma DoubledNameDesynchronises(b: string, marker: Bytes, pharosid: Bytes)
    requires SanitizeName(b + PROFILE) == b + PROFILE
    ensures var files := After(map[], Sync(b + PROFILE, "", Some([]), marker, pharosid));
            !Inv(files) && Cloud(files) == {b + PROFILE} && b + PROFILE in After(files, Logout)
  {
    SyncEmpty(map[], b + PROFILE, marker, pharosid);
    SanitizedName(b + PROFILE);
    DoubledSynced(b, Wrapped([]).value, marker, pharosid);
  }

  /** Such a name: a device whose alias is "a.pharos". */
  lemma DoubledNameExists(marker: Bytes, pharosid: Bytes)
    ensures !Inv(After(map[], Sync("a.pharos", "", Some([]), marker, pharosid)))
  {
    WitnessNames();
    assert "a.pharos" == "a" + PROFILE;
    DoubledNameDesynchronises("a", marker, pharosid);
  }

  /** The cloud set after a sync: as it was when the fetch fails, the fresh bundle when a document was
      fetched, and none at all when what was fetched is not a document. */
  lemma CloudAfterSync(files: Files, op: Op)
    requires op.Sync?
    ensures Cloud(After(files, op)) ==
            match op.fetched
            case None => Cloud(files)
            case Some(plaintext) => if Wrapped(plaintext).Some? then {SyncName(op.alias, op.email)} else {}
  {
    PurgedCloud(files);
    if op.fetched.Some? && Wrapped(op.fetched.value).Some? {
      SyncedCloud(files, SyncName(op.alias, op.email), Wrapped(op.fetched.value).value, op.marker, op.pharosid);
    }
  }

  lemma LetterNotJson()
    ensures UnmarshalBytes([0x78]) == None
  {
    assert EncodeText("x") == [0x78] by { assert EncodeText("") == []; }
    DecodeTextEncode("x");
  }

  /** A second sync that fetches bytes which are no JSON document, here the letter x, leaves no cloud
      set: the first one's bundle is gone. */
  lemma NotJsonLosesCloud(marker: Bytes, pharosid: Bytes)
    ensures var before := After(map[], Sync("home", "", Some([]), marker, pharosid));
            && Cloud(before) == {"home"}
            && Cloud(After(before, Sync("home", "", Some([0x78]), marker, pharosid))) == {}
  {
    var before := After(map[], Sync("home", "", Some([]), marker, pharosid));
    WitnessNames();
    SyncEmpty(map[], "home", marker, pharosid);
    CloudAfterSync(map[], Sync("home", "", Some([]), marker, pharosid));
    LetterNotJson();
    CloudAfterSync(before, Sync("home", "", Some([0x78]), marker, pharosid));
  }

  /** A sync under a name with ".pharos" stores over whatever is stored under that name without it,
      and gives that bundle no marker. */
  lemma SyncStoresOver(files: Files, b: string, plaintext: Bytes, marker: Bytes, pharosid: Bytes)
    requires b != "" && '/' !in b && !HasSuffix(b, PROFILE) && SanitizeName(b + PROFILE) == b + PROFILE
    requires Wrapped(plaintext).Some?
    ensures var after := After(files, Sync(b + PROFILE, "", Some(plaintext), marker, pharosid));
            Stored(after, b) == Wrapped(plaintext) && b !in Cloud(after)
  {
    SuffixCut(b, PROFILE);
    SanitizedName(b + PROFILE);
    SameStored(b, b + PROFILE);
    SyncedStores(files, b + PROFILE, Wrapped(plaintext).value, marker, pharosid);
    CloudAfterSync(files, Sync(b + PROFILE, "", Some(plaintext), marker, pharosid));
    assert |b| < |b + PROFILE|;
  }

  lemma ImportNameOf(b: string)
    requires '/' !in b && SanitizeName(b) == b
    ensures ImportName(b + PROFILE) == b
  {
    BaseNamePlain(b + PROFILE);
    SuffixCut(b, PROFILE);
  }

  /** An imported bundle that a sync under its name with ".pharos" overwrites: it never had a marker,
      and what is read back under its name is the fresh file. */
  lemma ImportLost(data: Bytes, marker: Bytes, pharosid: Bytes)
    requires Header(data).Some? && data != Wrapped([]).value
    ensures var before := After(map[], Import("a" + PROFILE, data));
            var after := After(before, Sync("a" + PROFILE, "", Some([]), marker, pharosid));
            && Cloud(before) == {} && Stored(before, "a") == Some(data)
            && "a" !in Cloud(after) && Stored(after, "a") != Some(data)
  {
    var before := After(map[], Import("a" + PROFILE, data));
    WitnessNames();
    ImportNameOf("a");
    ImportedReads(map[], "a" + PROFILE, data, "a");
    ImportKeepsInv(map[], "a", data);
    assert "a.pharos" == "a" + PROFILE;
    SyncEmpty(before, "a" + PROFILE, marker, pharosid);
    SyncStoresOver(before, "a", [], marker, pharosid);
  }

  /** Such an import: any profile file whose document is not null. */
  lemma LosableImportExists() returns (data: Bytes)
    ensures Header(data).Some? && data != Wrapped([]).value
  {
    var document := MarshalBytes(Obj(FNil));
    BytesRoundTrip(Obj(FNil));
    var p := Crypto.LawfulPrimitivesExist();
    var opts := Options("", [], []);
    data := WrapPlaintext(Of(document)).value;
    WrapThenParse(p, Of(document), opts, (v: Json) => Some(v));
    WrapThenParse(p, Nil, opts, (v: Json) => Some(v));
  }

  // ----- the store itself

  datatype StoreError = NotProfile | FetchFailed | NotFound

  class ProfileStore {
    var files: Files

    constructor ()
      ensures files == map[]
    {
      files := map[];
    }

    /** Store.Import: the header check, then the write. */
    method Import(name: string, data: Bytes) returns (r: Result<string, StoreError>)
      modifies this
      ensures r == (if Header(data).Some? then Ok(ProfilePath(name)) else Err(NotProfile))
      ensures files == (if r.Ok? then old(files)[ProfilePath(name) := data] else old(files))
    {
      if Header(data).None? {
        return Err(NotProfile);
      }
      var p := ProfilePath(name);
      files := files[p := data];
      return Ok(p);
    }

    method Raw(name: string) returns (r: Result<Bytes, StoreError>)
      ensures r == (match Stored(files, name) case Some(data) => Ok(data) case None => Err(NotFound))
    {
      var p := ProfilePath(name);
      if p in files {
        return Ok(files[p]);
      }
      return Err(NotFound);
    }

    method ImportBundle(path: string, data: Bytes) returns (r: Result<string, StoreError>)
      modifies this
      ensures files == After(old(files), Op.Import(path, data))
      ensures r.Ok? <==> Header(data).Some?
      ensures r.Ok? ==> r.value == ImportName(path) && Stored(files, r.value) == Some(data)
    {
      var name := SanitizeName(TrimSuffix(BaseName(path), PROFILE));
      var stored := Import(name, data);
      if stored.Err? {
        return Err(stored.error);
      }
      return Ok(name);
    }

    /** os.Remove, whose failure is ignored. */
    method RemoveFile(name: string)
      modifies this
      ensures files == old(files) - {name}
    {
      files := files - {name};
    }

    /** The inner loop of purgeCloud: a bundle and all its sidecars. */
    method RemoveBundle(base: string)
      modifies this
      ensures files == old(files) - Sidecars({base})
    {
      for k := 0 to |REMOVED|
        invariant files == old(files) - (set j | 0 <= j < k :: base + REMOVED[j])
      {
        RemoveFile(base + REMOVED[k]);
      }
      SidecarsOf(base);
    }

    /** purgeCloud: for every marker in the listing, removes the bundle and its sidecars. */
    method PurgeCloud() returns (n: nat)
      modifies this
      ensures files == Purged(old(files))
      ensures n == |Cloud(old(files))|
    {
      ghost var before := files;
      var markers := set f | f in files && HasSuffix(f, SYNCED);
      ghost var done: set<string> := {};
      MarkersOfCloud(before);
      n := 0;
      while markers != {}
        invariant Purging(before, markers, done)
        invariant files == before - Sidecars(done)
        invariant n == |done|
        decreases markers
      {
        var f :| f in markers;
        var base := TrimSuffix(f, SYNCED);
        PurgeStep(before, markers, f, done);
        RemoveBundle(base);
        markers := markers - {f};
        done := done + {base};
        n := n + 1;
      }
      assert Bases(markers) == {} && done == Cloud(before);
    }

    /** syncBundle with the outcome of the fetch: nothing changes unless the fetch succeeded; then
        the old cloud set goes first and the fresh bundle, marker and identity are written. */
    method SyncBundle(alias: string, email: string, fetched: Option<Bytes>, marker: Bytes, pharosid: Bytes)
      returns (r: Result<string, StoreError>)
      modifies this
      ensures files == After(old(files), Sync(alias, email, fetched, marker, pharosid))
      ensures fetched.None? ==> r == Err(FetchFailed) && files == old(files)
      ensures r.Ok? <==> fetched.Some? && Wrapped(fetched.value).Some?
      ensures r.Ok? ==> r.value == SyncName(alias, email) && Cloud(files) == {r.value}
      ensures r.Err? && fetched.Some? ==> Cloud(files) == {}
    {
      if fetched.None? {
        return Err(FetchFailed);
      }
      PurgedCloud(files);
      var _ := PurgeCloud();
      var env := Wrapped(fetched.value);
      if env.None? {
        return Err(NotProfile);
      }
      var name := SanitizeName(FirstNonEmpty(alias, email, "account"));
      SyncedCloud(old(files), name, env.value, marker, pharosid);
      WrapThenHeader(Crypto.Handed(fetched.value));
      var stored := Import(name, env.value);
      files := files[name + SYNCED := marker];
      files := files[name + IDENTITY := pharosid];
      return Ok(name);
    }

    /** Logout: the count is the number of markers removed. */
    method Logout() returns (n: nat)
      modifies this
      ensures files == After(old(files), Op.Logout)
      ensures Cloud(files) == {} && n == |Cloud(old(files))|
    {
      PurgedCloud(files);
      n := PurgeCloud();
    }

    /** The rm command: the profile and two of its three sidecars. */
    method Remove(name: string)
      modifies this
      ensures files == After(old(files), Op.Remove(name))
    {
      var suffixes := [PROFILE, SYNCED, IDENTITY];
      var i := 0;
      while i < |suffixes|
        invariant 0 <= i <= 3
        invariant files == old(files) - (set k | 0 <= k < i :: name + suffixes[k])
      {
        RemoveFile(name + suffixes[i]);
        i := i + 1;
      }
      assert (set k | 0 <= k < 3 :: name + suffixes[k]) == {name + PROFILE, name + SYNCED, name + IDENTITY} by {
        assert suffixes[0] == PROFILE && suffixes[1] == SYNCED && suffixes[2] == IDENTITY;
      }
    }
  }

  /** The suffixes purgeCloud removes, in its order. */
  const REMOVED: seq<string> := [PROFILE, SYNCED, DISABLED, IDENTITY]

  ghost predicate AreMarkers(markers: set<string>) {
    forall f :: f in markers ==> HasSuffix(f, SYNCED)
  }

  function Bases(markers: set<string>): set<string> {
    set f | f in markers :: TrimSuffix(f, SYNCED)
  }

  /** Two markers never share a base. */
  lemma MarkerTaken(markers: set<string>, f: string)
    requires AreMarkers(markers) && f in markers
    ensures var base := TrimSuffix(f, SYNCED);
            Bases(markers) == Bases(markers - {f}) + {base} && base !in Bases(markers - {f})
  {
    var base := TrimSuffix(f, SYNCED);
    assert f == base + SYNCED;
    forall g | g in markers && TrimSuffix(g, SYNCED) == base ensures g == f {
      assert g == TrimSuffix(g, SYNCED) + SYNCED;
    }
  }

  lemma MarkersOfCloud(files: Files)
    ensures Purging(files, set f | f in files && HasSuffix(f, SYNCED), {})
    ensures Sidecars({}) == {}
  {
  }

  /** Half-way through a purge: the markers left and the bundles done make up the cloud set. */
  ghost predicate Purging(before: Files, markers: set<string>, done: set<string>) {
    AreMarkers(markers) && done !! Bases(markers) && Cloud(before) == done + Bases(markers)
  }

  lemma PurgeStep(before: Files, markers: set<string>, f: string, done: set<string>)
    requires Purging(before, markers, done) && f in markers
    ensures var base := TrimSuffix(f, SYNCED);
            && Purging(before, markers - {f}, done + {base})
            && |done + {base}| == |done| + 1
            && before - Sidecars(done) - Sidecars({base}) == before - Sidecars(done + {base})
  {
    var base := TrimSuffix(f, SYNCED);
    MarkerTaken(markers, f);
    SidecarsGrow(done, base);
    assert base in Bases(markers);
    assert base !in done;
  }

  lemma SidecarsOf(base: string)
    ensures Sidecars({base}) == set k | 0 <= k < |REMOVED| :: base + REMOVED[k]
  {
    assert REMOVED[0] == PROFILE && REMOVED[1] == SYNCED && REMOVED[2] == DISABLED && REMOVED[3] == IDENTITY;
    forall x ensures x in Sidecars({base}) <==> x in (set k | 0 <= k < |REMOVED| :: base + REMOVED[k]) {
      if x in Sidecars({base}) {
        var s :| s in SIDECARS && x == base + s;
        var k := if s == PROFILE then 0 else if s == SYNCED then 1 else if s == DISABLED then 2 else 3;
        assert REMOVED[k] == s;
      }
    }
  }

  lemma SidecarsGrow(done: set<string>, base: string)
    ensures Sidecars(done + {base}) == Sidecars(done) + Sidecars({base})
  {
  }

  lemma WrapThenHeader(plaintext: Slice)
    requires WrapPlaintext(plaintext).Some?
    ensures Header(WrapPlaintext(plaintext).value).Some?
  {
    var p := Crypto.LawfulPrimitivesExist();
    WrapThenParse(p, plaintext, Options("", [], []), (v: Json) => Some(v));
  }
}
