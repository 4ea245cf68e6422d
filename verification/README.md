# Caravel client: a verified model

This project models the parts of the Caravel VPN client where something can go wrong that no single
function shows, and proves what those parts are for. `dafny verify dfyconfig.toml` checks all of it.

**Taking over the routes.** `Routes` is an IPv4 table with longest-prefix lookup over all 2^32
addresses; `Capture` says which `ip route` commands a set-up issues and what every address's lookup is
afterwards; `Exposure` says in which tables on the way up and down the endpoint itself is sent into the
tunnel; `LinuxTunnel` is the tunnel object, with its undo stack, against a kernel whose commands and
deletes may fail at any step. How the `ip` command reads a destination is a parameter; `Cidr` is a
reader for which the assumptions of the theorems hold.

**Text and byte formats.** `Text`, `Base64`, `Utf8`, `HostPort` and `Json` are encoders and decoders
down to the character or byte, each proved inverse. `JsonRecords` is how Go writes and reads structs.
On top stand the device configuration text (`Uapi`), the status text (`Stats`), the signed bundle
(`SealedBundles`), the `.pharos` envelope (`Envelopes`), the `.pharosid` identity (`DeviceIds`) and the
choice of the endpoint to dial (`Endpoints`).

**Concurrency.** `Lifecycle` and `Splice` are step systems: a run is any interleaving of atomic steps
of any number of calls or flows, and the theorems hold in every state of every run.

**Stored profiles and sync.** `Store` is a directory with its sidecar files and the replace-all cloud
set; `StoreNames` its file names. `Crypto` treats the primitives as function values with nothing but
their correctness equations (X25519 agreement of section 6.1 of RFC 7748, an AEAD that opens what it
sealed, signatures that verify), and exhibits primitives that satisfy them. `Sync` runs the client
against a controller that keeps an enrolled key pair; calls and answers may each be lost. `Workflows` joins
the two, from the document the controller issued to the profile that opens. Random draws and network
failures are parameters.

Beside the round trips stand theorems in the formats' and the source's own terms: the bytes that are
written, member by member; what is read and what is refused, both ways; and the files, routes, messages
and byte counts that an operation leaves behind.

Source that updates state is modelled by classes and methods with loops, each proved against a
function of the old state; source made of expressions by functions. The theorems are about those
functions.

## Where the code does less than one might expect

These are statements about the code as it is. Each comes with the exact condition under which the code
does meet the expectation, and with an input on which it does not.

- Split mode with a default route in the list: the listed prefixes go in before the endpoint's current
  hop is read. The endpoint stays off the tunnel exactly when no listed prefix takes it over
  (`Capture.SplitCaptureEndpoint`; a failing list: `Cidr.StrandedEndpoint`).
- Close ignores deletes that fail. Whichever fail, it restores the initial table exactly when each
  prefix the set-up named was deleted and had no entry before, or kept with the entry it had
  (`Routes.TearDownLeaves`). When none fails, that is when no `replace` overwrote an entry, which a table
  without entries at the endpoint's /32 and the two halves guarantees (`Routes.TearDownRestores`,
  `Capture.PlanOverwrites`; a host that does not get its table back: `Exposure.CloseLosesEntry`).
- When deletes fail, a tear-down can leave the endpoint in the tunnel, for a full tunnel exactly when the
  pin was deleted, the delete of the half around the endpoint failed, and nothing but the pin's own
  prefix was a longer match (`Exposure.StuckTearDownStrands`; a failing run, after a complete or a partial
  set-up: `Exposure.StuckDeleteStrands`). When no delete fails it never does
  (`Exposure.TearDownKeepsEndpointOff`).
- A bundle synced under a name that ends in ".pharos" has a marker and an identity file whose profile
  is stored under another name, because only the profile path strips that suffix
  (`Store.SyncKeepsInv`; failing names: `Store.DoubledNameDesynchronises`, `Store.DoubledNameExists`).
- Replace-all: the old cloud set is removed before the fresh profile is wrapped. A fetch that fails
  changes nothing, but fetched bytes that are no JSON document leave no cloud set at all
  (`Store.CloudAfterSync`; a failing sync: `Store.NotJsonLosesCloud`). An empty plaintext arrives as a nil
  slice and is stored as null.
- A sync keeps an unmarked, imported bundle exactly when it stores nothing, or the fresh name is neither
  the bundle's own name nor that name with ".pharos" (or the file already held the same bytes)
  (`Store.UnmarkedUntouched`; an imported bundle "a" lost to a sync under the alias "a.pharos":
  `Store.ImportLost`, for files such as `Store.LosableImportExists` gives).
- A configuration string with a newline in it changes the lines the device reads
  (`Uapi.ConfigReadsBack`; `Uapi.NewlineMisreads`), and a pool address with a bracket in it does not dial
  (`Endpoints.PickedEndpointDials`; `Endpoints.BracketedPoolDoesNotDial`).
- A bundle whose signing key is empty rather than absent comes back with it absent
  (`DeviceIds.ParseMarshal`; `DeviceIds.EmptySigningKeyLost`).
- A password file whose header asks for zero passes or zero threads makes opening it panic, because the
  header is used unchecked (`Envelopes.PasswordRoundTrip`).

## Model

| member | source | states |
|---|---|---|
| Routes.CoversBlock | go/cmd/caravel/connect_linux.go:192 | a prefix without host bits covers exactly one aligned block of addresses |
| Routes.LookupIsLongest | go/cmd/caravel/connect_linux.go:214-216 | lookup is longest-prefix match: the match covers the address, no covering entry is longer, and there is none only if nothing covers it |
| Routes.LookupUpdate | go/cmd/caravel/connect_linux.go:193 | one new entry changes the lookup of exactly the addresses it covers that had no longer match |
| Routes.ReplayFrame | go/cmd/caravel/connect_linux.go:159-196 | a run of commands touches only the prefixes it names, and those all end up in the table |
| Routes.TearDownLeaves | go/cmd/caravel/connect_linux.go:201-206 | undoing every command of a run that stopped anywhere, whichever deletes fail, gives the built table without the deleted prefixes, and the initial table if and only if each named prefix was deleted and had no entry, or kept with the entry it had |
| Routes.TearDownRestores | go/cmd/caravel/connect_linux.go:203-205 | when no delete fails that is the initial table without the named prefixes, and the initial table itself if and only if no replace overwrote an entry |
| Routes.TearDownRetraces | go/cmd/caravel/connect_linux.go:203-205 | when no delete fails and every command named an absent prefix, last-in first-out deletion passes back through exactly the tables the set-up built, in reverse |
| Capture.AddsAre | go/cmd/caravel/connect_linux.go:150-163 | the routes of a list are exactly, in order, its entries that hold no colon and are not "0.0.0.0/0", each added over the tunnel interface without a gateway |
| Capture.Ipv6Skipped | go/cmd/caravel/connect_linux.go:156-158 | an IPv6 entry other than the default route changes nothing of a set-up, wherever it stands in the list |
| Capture.OverridesWhen | go/cmd/caravel/connect_linux.go:149-167 | a set-up that reaches the endpoint overrides the default exactly in full mode and when the list holds "0.0.0.0/0" or "::/0" |
| Capture.AddedLookup | go/cmd/caravel/connect_linux.go:150-163 | after any run of adds and the deletion of any prefixes, an address is on the tunnel by the adds left exactly when one of them beats what is left of the initial table; otherwise its lookup is the one of that table |
| Capture.SplitLookup | go/cmd/caravel/connect_linux.go:150-167 | split mode, lists of any length: an address uses the tunnel exactly when a listed IPv4 prefix covers it and is longer than its old match; all other lookups are unchanged; without a default route in the list these adds are the whole set-up |
| Capture.EndpointKeepsHop | go/cmd/caravel/connect_linux.go:169-197 | after each of the three override commands the endpoint still has the hop it had, because the pin goes in before the halves |
| Capture.FullCapture | go/cmd/caravel/connect_linux.go:169-198 | after the override, for every one of the 2^32 addresses: endpoint unchanged, old match longer than /1 unchanged, everything else on the tunnel; the old default and all other entries still there |
| Capture.CapturedLookup | go/cmd/caravel/connect_linux.go:149-198 | the same for the whole plan, in both modes, relative to the table after the adds |
| Capture.WholePlanLookups | go/cmd/caravel/connect_linux.go:149-198 | a set-up that followed its whole plan: the lookup of every address, in full mode, in split mode, and in split mode with a default listed |
| Capture.PlanOverwrites | go/cmd/caravel/connect_linux.go:183-197 | wherever it stops, a set-up overwrites nothing on a table without entries at the three replaced prefixes; one that runs to its end overwrites nothing only on such a table |
| Capture.SplitCaptureEndpoint | go/cmd/caravel/connect_linux.go:150-198 | in split mode with a default listed the endpoint is on the tunnel if and only if some listed prefix takes it over |
| Capture.SplitCaptureCanStrand | go/cmd/caravel/connect_linux.go:150-183 | a concrete list for which the endpoint is sent into the tunnel |
| Exposure.EndpointOnTunnel | go/cmd/caravel/connect_linux.go:149-206 | the exact condition, in every mode, for any list and any initial table that does not use the fresh interface, at any stopping point of the set-up and after the deletion of any prefixes, under which the endpoint is on the tunnel |
| Exposure.TornExposed | go/cmd/caravel/connect_linux.go:201-206 | the same after any number of deletes of a tear-down, any of which may fail |
| Exposure.SetUpKeepsEndpointOff | go/cmd/caravel/connect_linux.go:169-198 | no table of a full-tunnel set-up, wherever it stops, sends the endpoint into the tunnel |
| Exposure.TearDownKeepsEndpointOff | go/cmd/caravel/connect_linux.go:201-206 | when no delete fails, no table of a full tunnel's tear-down sends the endpoint into the tunnel, from whichever command the set-up stopped at and whatever the initial table holds: the pin comes out after the halves; the old hop is kept while the pin is there |
| Exposure.StuckTearDownStrands | go/cmd/caravel/connect_linux.go:203-205 | with deletes that may fail, after a full set-up that stopped anywhere, the endpoint is on the tunnel if and only if the tear-down is through, the pin went, the half around it was added and stayed, and nothing but the pin's prefix was a longer match |
| Exposure.CloseLosesEntry | go/cmd/caravel/connect_linux.go:192-205 | a host with its own route for a half does not get its table back |
| Exposure.StuckDeleteStrands | go/cmd/caravel/connect_linux.go:203-205 | one failing delete strands the endpoint, after a complete or a partial set-up |
| Cidr.DottedReadsBack | go/cmd/caravel/connect_linux.go:183-190 | the dotted text of every address reads back as that address |
| Cidr.ReadsClientRoutes | go/cmd/caravel/connect_linux.go:183-192 | a reader of prefix notation reads the pin, the two halves and the default route as what they say |
| Cidr.StrandedEndpoint | go/cmd/caravel/connect_linux.go:150-183 | with that reader, listing the endpoint's own /32 beside a default route strands it, for every endpoint |
| LinuxTunnel.Tunnel.AddListed | go/cmd/caravel/connect_linux.go:150-164 | the loop issues the listed adds in order up to the first failure, keeps undo stack and table in step, and reports whether a default was listed |
| LinuxTunnel.Tunnel.OverrideDefault | go/cmd/caravel/connect_linux.go:183-197 | pin, low half, high half in that order, up to the first failure, each on the undo stack once it took effect |
| LinuxTunnel.Tunnel.ConfigureNetwork | go/cmd/caravel/connect_linux.go:138-199 | on success the interface got its address as a /32 and its MTU, and the whole plan took effect; else exactly a prefix of the plan did; every intermediate table is one the plan passes through; each error says why it stopped |
| LinuxTunnel.Tunnel.Close | go/cmd/caravel/connect_linux.go:201-212 | deletes the undo stack last first whatever fails, clears it, closes the engine at most once, and every intermediate table is the expected one |
| LinuxTunnel.Tunnel.CloseAfter | go/cmd/caravel/connect_linux.go:201-212 | closing after any set-up, whichever deletes fail: the exact condition under which the initial table is back, and for every table on the way down the exact condition under which the endpoint is on the tunnel |
| LinuxTunnel.Tunnel.Connect | go/cmd/caravel/connect_linux.go:126-131 | a failed connect has closed the engine once and given the routes back under that condition; after a successful one the lookup of every address is the one its mode promises; every table on the way has the endpoint on the tunnel exactly as the commands done so far say, in full mode never on the way up |
| LinuxTunnel.Tunnel.Session | go/cmd/caravel/connect_linux.go:79-83 | connect then close, for every list, every failing command and every failing delete: engine closed exactly once, the exact condition for the initial table to be back, and table by table the exact condition for the endpoint to be on the tunnel: in full mode never on the way up, and never at all when no delete fails |
| Base64.DecodeEncode | go/vp/engine.go:204 | padded base64 decoding undoes encoding on all byte strings |
| Base64.Alphabet | go/vp/engine.go:204 | the 64 characters and their order |
| Base64.GroupBits | go/vp/engine.go:204 | four characters are the 24 bits of three bytes, most significant first |
| Base64.TestVectors | go/vp/engine.go:204 | the encodings that RFC 4648 gives for one, two and three bytes, padding included |
| Base64.LineEndsIgnored | go/vp/engine.go:204 | a line end anywhere in a text changes nothing of what it decodes to |
| Base64.ForeignRefused | go/vp/engine.go:204-207 | any other character outside the alphabet makes a text undecodable |
| Base64.LengthRefused | go/vp/engine.go:204-207 | so does a length that is no multiple of four |
| Base64.PaddingRefused | go/vp/engine.go:204-207 | so does padding before the last two places |
| Base64.HexAt | go/vp/engine.go:211 | two hex digits a byte, the high one first |
| Base64.KeyHexReports | go/vp/engine.go:203-210 | a key that does not convert is reported as no base64 or, with its length, as not 32 bytes |
| Base64.HexDecodeEncode | go/vp/engine.go:211 | hex decoding undoes encoding on all byte strings |
| Base64.KeyHexDenotes | go/vp/engine.go:202-212 | a key that converts is 64 lowercase hex digits spelling the bytes the base64 text denotes |
| Base64.KeyHexRoundTrip | go/vp/engine.go:202-212 | every 32-byte key survives base64, surrounding white space and hex |
| Base64.KeyHexInjective | go/vp/engine.go:202-212 | conversion succeeds exactly on texts of 32 bytes, and two texts share their hex if and only if they denote one key |
| Text.SplitUnlines | go/vp/engine.go:113 | splitting on newlines gives the written lines back if and only if none holds a newline |
| Text.SplitJoined | go/vp/engine.go:113 | splitting cuts at every separator and nowhere else |
| Text.ParseInt64Itoa | go/vp/engine.go:115 | every 64-bit integer reads back from its decimal text |
| Text.ParseInt64Accepts | go/vp/engine.go:115 | an integer is at most one sign, then at least one digit, within 64 bits; everything else is refused |
| Text.Decimals | go/vp/engine.go:115 | decimal notation on concrete numbers |
| Utf8.DecodeTextEncode | go/crypto/keys.go:86 | every string reads back from the bytes written for it |
| Utf8.OnlyCanonical | go/crypto/keys.go:86 | only the bytes written for a string are read as it: no overlong form, no surrogate, no cut-off character |
| Utf8.Examples | go/crypto/keys.go:86 | characters of one to four bytes as RFC 3629 writes them |
| Json.UnmarshalMarshal | go/crypto/keys.go:86 | reading undoes printing on every value, with Go's escapes |
| Json.UnmarshalSpaced | go/profile/pharos.go:322 | a value is read just the same with white space before, after and between its tokens, and nothing else may follow it |
| Json.Escapes | go/crypto/keys.go:86 | how each escaped character is written |
| Json.HexEscapes | go/crypto/keys.go:86 | the HTML characters, control characters and line separators written as hex escapes |
| Json.Numbers | go/profile/pharos.go:322 | numbers with a fraction and a signed exponent are read |
| Json.NoLeadingZero | go/profile/pharos.go:322 | a leading zero, a plus sign and a missing number are refused |
| Json.ControlRefused | go/profile/pharos.go:322 | a control character may not stand in a string as it is |
| Json.Unescapes | go/profile/pharos.go:322 | the escapes that are read beside those, lone surrogates included |
| JsonRecords.RecordRoundTrip | go/crypto/keys.go:71-79 | a printed struct reads back field by field, left-out fields included |
| JsonRecords.RecordText | go/crypto/keys.go:71-79 | a record prints as its present members in order, each under its name, between braces |
| JsonRecords.NumbersRead | go/profile/pharos.go:66-82 | absent, null or an integer of the field's range is read, anything else is an error |
| JsonRecords.ArraysAndNull | go/profile/pharos.go:344 | an array gives bytes up to 255, and a struct is read from an object, or from null as empty |
| JsonRecords.TextsRead | go/profile/pharos.go:66-82 | the same for text and for byte slices, from base64 or from an array of numbers |
| Uapi.KeyOrder | go/vp/engine.go:155-200 | all interface keys come before the single public_key line and all peer keys after it |
| Uapi.PrintConfig | go/vp/engine.go:155-200 | the printer returns the configuration text, key name by key name, or the first key that does not convert |
| Uapi.PrintedIs | go/vp/engine.go:165-199 | the lines that the reader is proved to read back are that text |
| Uapi.HexKeysReport | go/vp/engine.go:156-183 | which of the three keys is reported, and that otherwise each is in its place in hex |
| Uapi.PrintedReadsBack | go/vp/engine.go:155-200 | a key=value reader recovers every line in order when values hold no newline; the text splits into the written lines if and only if so |
| Uapi.ConfigReadsBack | go/vp/engine.go:155-200 | from the text of any configuration with valid keys the reader recovers key bytes, all eleven numbers, exactly the non-empty templates with their indices, the optional fields, and the allowed addresses in order or the default pair |
| Uapi.NewlineMisreads | go/vp/engine.go:172-176 | a valid configuration with a newline in a template, whose text does not split into the written lines |
| Stats.Stats | go/vp/engine.go:101-125 | the loop over the status lines returns both totals in 64-bit arithmetic, and not-ok on a closed or failing device |
| Stats.StatsOfPeers | go/vp/engine.go:113-123 | for any peers amid any other lines, white space around the numbers and counters that are no number included, the totals of the printed text are the sums of the peers' counters |
| Stats.StatsOnPeers | go/vp/engine.go:101-125 | the method returns exactly those sums |
| SealedBundles.BundleRoundTrip | go/crypto/keys.go:71-79 | a bundle survives marshalling, nil and empty fields told apart |
| SealedBundles.BundleText | go/crypto/keys.go:71-79 | the bytes of a bundle: seven named members in order, each slice null or base64 |
| SealedBundles.SigningText | go/crypto/keys.go:81-87 | the signed bytes, with a null signature |
| SealedBundles.SigningBytesInjective | go/crypto/keys.go:81-87 | two bundles are signed over the same bytes if and only if they agree on everything but the signature |
| SealedBundles.VerifierRecomputes | go/sync/client.go:289-295 | the verifier recomputes, from the received bytes, the bytes the signer signed |
| Crypto.AeadOrder | go/crypto/keys.go:56-66 | a key of the wrong size is refused first, then a nonce of the wrong size panics, then what does not authenticate is refused |
| Crypto.SignatureChecked | go/crypto/keys.go:91-98 | the signature is refused if and only if the signer's key is not 32 bytes or does not verify it over the bundle's bytes with a cleared signature |
| Crypto.OpensExactly | go/crypto/keys.go:91-112 | a bundle opens if and only if its signature verifies, the key exchange succeeds and both ciphertexts open in turn |
| Crypto.SealThenOpen | go/crypto/keys.go:89-112 | opening a sealed bundle returns the plaintext, for every plaintext, key and draw |
| Crypto.SealedParts | go/sync/decrypt_test.go:28-73 | what a sealed bundle carries |
| Crypto.WrappedRoundTrip | go/crypto/keys.go:116-129 | the wrapped-key blob survives marshalling |
| Crypto.WrappedText | go/crypto/enroll.go:40-53 | the bytes of a wrapped key: version 1, salt, nonce, and the key sealed under Argon2id with one pass, 64 MiB and four threads |
| Crypto.UnwrapsExactly | go/crypto/keys.go:123-135 | a blob unwraps if and only if it opens under that derivation from its own salt; else the passphrase is refused, or a nonce of the wrong size panics |
| Crypto.WrapThenUnwrap | go/crypto/enroll.go:37-53 | the passphrase that wrapped a private key unwraps it, for every key, salt and nonce |
| Crypto.LawfulPrimitivesExist | go/crypto/keys.go:49-66 | the equations assumed of the primitives have a model |
| Envelopes.EnvelopeRoundTrip | go/profile/pharos.go:65-83 | an envelope reads back from its file, an empty nonce as absent |
| Envelopes.EnvelopeText | go/profile/pharos.go:65-83 | the bytes of an envelope: its members in order, nil ones left out |
| Envelopes.HeaderAccepts | go/profile/store.go:125-133 | a file has a header if and only if it is a JSON object whose fmt is "pharos-profile" and whose other fields are absent, null or of their type; and what the header then holds |
| Envelopes.ParseRefuses | go/profile/pharos.go:320-372 | which file, version, mode, missing password, missing derivation and missing keys are refused, and how |
| Envelopes.PayloadRefused | go/profile/pharos.go:339-376 | a payload that is no ciphertext or no bundle is refused as no profile file, and a bundle for the reason it does not open |
| Envelopes.WrongPasswordRefused | go/profile/pharos.go:363-382 | a password that does not open the file is reported as such |
| Envelopes.DecodedReports | go/profile/pharos.go:356-360 | a document that is missing or does not decode is a bad payload |
| Envelopes.PasswordOpens | go/profile/pharos.go:363-382 | a password file opens only with its own ciphertext, nonce and header under the key its own parameters derive |
| Envelopes.AccountVerified | go/profile/pharos.go:339-351 | an account file opens only when its signature verifies under the given signer and it unseals with the device's key |
| Envelopes.AadReadBack | go/profile/pharos.go:85-91 | the header recomputed from a file read back is byte for byte the one its writer authenticated |
| Envelopes.AadText | go/profile/pharos.go:85-91 | the header's bytes, with a null payload |
| Envelopes.AadDetermines | go/profile/pharos.go:85-91 | two envelopes share a header if and only if format, version, mode, key-derivation parameters and nonce agree |
| Envelopes.WrapThenParse | go/profile/store.go:112-133 | a profile wrapped as enc:none passes the header check and parses to exactly what decoding its document gives, for every decoder of documents; wrapping fails exactly on bytes that are no JSON document |
| Envelopes.WrappedText | go/profile/store.go:112-123 | the bytes a wrapped profile is stored as |
| Envelopes.PasswordRoundTrip | go/profile/pharos.go:363-382 | a password file opens with its password under any key-derivation parameters, the header authenticated; with zero passes or threads opening panics |
| Envelopes.AccountRoundTrip | go/profile/pharos.go:339-351 | an account file opens with the private half of the key it was sealed to |
| DeviceIds.ParseMarshal | go/deviceid/deviceid.go:87-128 | Parse undoes Marshal on exactly the complete bundles of the current format and version whose signing key is not empty-but-present |
| DeviceIds.ParseAccepts | go/deviceid/deviceid.go:98-128 | any file is accepted if and only if it reads as an identity of format "pharos-device" and version 1 with all four required fields |
| DeviceIds.ParseReports | go/deviceid/deviceid.go:98-128 | which error is reported for which file |
| DeviceIds.BundleText | go/deviceid/deviceid.go:39-96 | the bytes an identity is written as: its members in order, five of them left out when empty |
| DeviceIds.EmptySigningKeyLost | go/deviceid/deviceid.go:53 | a complete bundle that comes back without its empty signing key |
| DeviceIds.ParseMarshalDefaults | go/deviceid/deviceid.go:87-96 | an unset format and version parse as the current ones |
| DeviceIds.PemRoundTrip | go/deviceid/deviceid.go:78-85 | any bytes survive PEM wrapping into 64-column lines |
| DeviceIds.OwnKeyExactly | go/deviceid/deviceid.go:61-76 | a bundle has its own key if and only if its text is a PEM block of type "X25519 PRIVATE KEY" with 32 bytes, and none if and only if the text is empty |
| DeviceIds.KeyText | go/deviceid/deviceid.go:78-85 | the PEM text of a device key; nothing but 32 bytes has one |
| DeviceIds.PemAccepts | go/deviceid/deviceid.go:68 | what is read as a block starts with a line naming its type and goes on to a line that ends the same type, with its base64 between |
| DeviceIds.LinesOf64 | go/deviceid/deviceid.go:84 | longer bodies are broken into lines of 64 columns |
| DeviceIds.DeviceKeyRoundTrip | go/deviceid/deviceid.go:61-114 | a device key survives PEM, JSON marshalling, parsing and unwrapping |
| HostPort.SplitJoin | go/vp/xray.go:130 | splitting undoes joining if and only if the host holds no bracket, IPv6 literals included |
| HostPort.SplitExactly | go/vp/xray.go:130-133 | splitting succeeds on exactly "host:port" without a further colon and "[host]:port", brackets nowhere else |
| HostPort.JoinIs | go/profile/pharos.go:536 | a host with a colon is joined in brackets, any other plainly |
| Endpoints.RandPort | go/profile/pharos.go:550-560 | the drawn port is in the effective range, with every intermediate value a 64-bit integer and the width positive |
| Endpoints.DrawnPorts | go/profile/pharos.go:550-560 | the ports that can be drawn, in terms of the given bounds and 443 |
| Endpoints.RandPortReaches | go/profile/pharos.go:550-560 | every port of the effective range is drawn |
| Endpoints.PickEndpoint | go/profile/pharos.go:527-548 | the filtering loops and draws return the text of the specified pick, or the error |
| Endpoints.PickIsAllowed | go/profile/pharos.go:527-548 | whatever is drawn is a pair the node allows, the flat list at 443 only when the pool names no address, and an error if and only if neither names one |
| Endpoints.PickedText | go/profile/pharos.go:527-548 | what is picked is the text of an allowed pair, in brackets exactly when the address holds a colon |
| Endpoints.PickReaches | go/profile/pharos.go:527-560 | every allowed pair is some draw's outcome |
| Endpoints.PickedEndpointDials | go/vp/xray.go:129-137 | the picked text dials exactly the picked address and port if and only if the address holds no bracket |
| Endpoints.DialsExactly | go/vp/xray.go:129-137 | what dials is a well-formed pair whose port is a decimal integer, and nothing else |
| Endpoints.BracketedPoolDoesNotDial | go/vp/xray.go:129-137 | a pool that writes its IPv6 address in brackets |
| Lifecycle.RunInv | go/vp/engine.go:52-149 | every state of every interleaving keeps the lock discipline and accounts for the device: in the field, owed a close by one call, or closed |
| Lifecycle.ClosedOnce | go/vp/engine.go:88-99 | the device is closed at most once, and exactly once when every started Close has returned |
| Lifecycle.NeverNil | go/vp/engine.go:104-149 | no call is ever made on a nil device |
| Lifecycle.SwapExcludesReaders | go/vp/engine.go:61-65 | the field is never written while it is read, nor by two calls at once |
| Lifecycle.LateReaderSeesClosed | go/vp/engine.go:101-149 | a Stats, IpcHandle or Wait that starts after the swap gets the closed answer |
| Lifecycle.OpenReaderSeesDevice | go/vp/engine.go:101-149 | before the swap, a Stats, IpcHandle or Wait that returns on an open tunnel has the device's answer |
| Lifecycle.OneCallEach | go/vp/engine.go:88-149 | the calls made on the device are one for its close and one for each reader with its answer |
| Lifecycle.NeverStuck | go/vp/engine.go:88-99 | while a call has not returned, some call can take a step |
| Splice.RunInv | go/vp/tun2socks.go:178-221 | every state of every interleaving accounts for bytes, tokens and closes of all flows |
| Splice.BytesCopied | go/vp/tun2socks.go:205-216 | in every interleaving, the bytes a flow holds are exactly those of its copy events, each way |
| Splice.CountersExact | go/vp/tun2socks.go:203-216 | the shared counters are exactly the bytes that the copy events of the finished directions moved, summed over all flows |
| Splice.AllCounted | go/vp/tun2socks.go:203-221 | once every flow has ended the counters are all the bytes copied, none lost and none counted twice |
| Splice.AddsWrap | go/vp/tun2socks.go:207-213 | each atomic Add acts on the counter as 64-bit addition |
| Splice.ClosedOnceAfterBoth | go/vp/tun2socks.go:217-220 | each connection is closed once, only after both directions ended; a refused flow closes the remote one exactly when it dialled |
| Splice.HalfCloseFirst | go/vp/tun2socks.go:207-215 | a write side is closed only after its direction ended and was counted, and both before either connection is |
| Splice.NoSendBlocks | go/vp/tun2socks.go:204-218 | the channel of capacity two never blocks a sender, and the waiter proceeds once both ended |
| Splice.CanProgress | go/vp/tun2socks.go:203-221 | from every reachable state a flow can take a step that brings it nearer its end |
| StoreNames.SanitizedName | go/core.go:497-511 | sanitized names are not empty, hold no separator, colon or blank, and are fixed by sanitizing again |
| StoreNames.SanitizedExactly | go/core.go:497-511 | trimming, then a dash for each separator, colon and blank, one for one; "profile" for nothing |
| StoreNames.BaseNameIs | go/profile/store.go:44 | the base name is the last element, trailing separators apart |
| StoreNames.ImportNameIs | go/core.go:81 | a profile file is imported, wherever it lies, under its sanitized name without the extension |
| StoreNames.SyncNameIs | go/core.go:163 | the alias names a synced bundle, else the email, else "account" |
| StoreNames.ProfilePathIs | go/profile/store.go:42-46 | the profile file of a plain name, its own ".pharos" not doubled |
| StoreNames.SidecarUnique | go/core.go:63-65 | bundle and role are recoverable from every sidecar file name |
| Store.SyncedCloud | go/core.go:157-174 | after a sync the cloud set is exactly the fresh bundle |
| Store.SyncedFiles | go/core.go:163-173 | the envelope, the marker and the identity a sync writes, each under its own name, and that it writes nothing else |
| Store.PurgeTakes | go/core.go:177-196 | a purge takes exactly the ".pharos", ".synced", ".disabled" and ".pharosid" files of every marked bundle |
| Store.SyncKeepsInv | go/core.go:157-174 | a sync keeps "at most one marker, each with profile and identity" if and only if the name does not end in ".pharos" or its doubled file was there |
| Store.DoubledNameDesynchronises | go/profile/store.go:42-46 | for every such name, a first sync leaves a marker without its profile, and a logout leaves that profile behind |
| Store.DoubledNameExists | go/core.go:163-173 | such a sync: a device whose alias is "a.pharos" |
| Store.CloudAfterSync | go/core.go:149-174 | the cloud set after a sync: unchanged when the fetch fails, the fresh bundle when a document was fetched, none when what was fetched is no document |
| Store.NotJsonLosesCloud | go/core.go:157-162 | a second sync, of fetched bytes that are no JSON document, that loses the first one's bundle |
| Store.RemoveKeepsInv | go/cmd/caravel/main.go:252-254 | removing a bundle takes exactly it out of the cloud set and keeps the invariant |
| Store.RemoveTakes | go/cmd/caravel/main.go:252-254 | a removal takes the profile, marker and identity and leaves every other file, the disabled mark among them |
| Store.AllOpsKeepInv | go/core.go:72-205 | the invariant holds after every sequence of imports, syncs, logouts and removals from an empty store |
| Store.UnmarkedUntouched | go/core.go:145-205 | a sync or logout keeps an unmarked bundle and all its sidecars byte for byte if and only if it stores nothing, or its fresh name is neither the bundle's name nor, with other bytes in the file, that name with ".pharos" |
| Store.SyncStoresOver | go/core.go:163-166 | for every plain name, a sync under that name with ".pharos" stores over what is stored under the name and gives it no marker |
| Store.ImportLost | go/core.go:177-196 | an imported bundle without a marker that a sync overwrites, although only marked bundles are to be replaced |
| Store.LosableImportExists | go/core.go:72-86 | a file that such an import can hold |
| Store.SyncedProfileReads | go/core.go:159-166 | what a sync stored is read back under the fresh name and parses to the profile that the fetched document denotes |
| Store.ProfileStore.Import | go/profile/store.go:48-60 | the header check decides, and only the named profile file changes |
| Store.ImportedReads | go/profile/store.go:62-73 | an imported file is read back byte for byte under the name the import returned, and what is stored under any other name is unchanged |
| Store.SameStored | go/profile/store.go:42-46 | two plain names lead to one stored file exactly when they differ at most in a ".pharos" at the end |
| Store.ProfileStore.ImportBundle | go/core.go:72-86 | an accepted file is stored under its sanitized name, a refused one changes nothing |
| Store.ProfileStore.PurgeCloud | go/core.go:177-196 | the loop over markers removes exactly the marked bundles' sidecars and counts the markers |
| Store.ProfileStore.SyncBundle | go/core.go:145-175 | a failed fetch leaves the whole store unchanged; a success leaves the fresh bundle as the whole cloud set |
| Store.ProfileStore.Logout | go/core.go:198-205 | the cloud set is empty and the count is the number of markers removed |
| Store.ProfileStore.Remove | go/cmd/caravel/main.go:243-257 | the profile and two of its three sidecars go, nothing else |
| Sync.SealedProfileOpens | go/sync/client.go:288-295 | a sealed profile that travelled as JSON opens with the private half of the key it was sealed to |
| Sync.OnlyVerifiedOpens | go/sync/client.go:288-295 | whoever sent it, nothing opens but a bundle whose signature verifies; other text is malformed, another signature refused |
| Sync.NoKeyWhen | go/sync/client.go:278-284 | there is no key if and only if the device has none and no wrapped key came back |
| Sync.BothPathsOpen | go/sync/client.go:273-295 | the device's own key, whatever blob comes back, and the unwrapped account key both open the profile |
| Sync.Client.Authenticate | go/sync/client.go:119-128 | the token is stored exactly on success |
| Sync.Client.EnrollKeys | go/sync/client.go:130-144 | nothing is sent without a token; the first pair to arrive is kept, also when its answer is lost |
| Sync.Client.GetProfile | go/sync/client.go:156-175 | nothing is sent without a token; a success is what the controller sealed for this device |
| Sync.Login | go/sync/client.go:217-246 | authenticate, then enroll exactly when the device has no key and the account none |
| Sync.Retrieve | go/sync/client.go:248-271 | it succeeds exactly when a token is held, the call arrives and its reply opens; the result is what the reply opens to, under the device's own key or the unwrapped one, and the issued profile when a key opens that |
| Sync.FetchWith | go/sync/client.go:217-271 | over the whole run: an authenticate call first, with the given password if an email is given and none otherwise, no session call without a token, enrollment if and only if needed; success exactly when the login gives a token, the last call arrives and its reply opens, which takes a verifying signature |
| Sync.Fetch | go/sync/client.go:204-271 | the same for a bundle: a malformed device key or a failed dial sends nothing at all, and with a good one it succeeds when no call fails and its key opens what the controller sends |
| Sync.SyncAll | go/sync/client.go:204-286 | any number of legacy devices with one passphrase, any calls and answers lost, recover the same private key and open the issued profile, and do succeed when nothing is lost; in all their messages the passphrase goes out only beside an email |
| Workflows.ImportThenOpen | go/core.go:72-86 | an imported file opens under the returned name to exactly what the file itself holds |
| Workflows.SyncAndStore | go/core.go:93-175 | a bad identity or a failed fetch leaves the store unchanged; else what was fetched replaces the cloud set, and it is the issued document when a key of this device opens that |
| Workflows.SyncThenOpen | go/core.go:93-175 | after a successful sync, opening the fresh name gives what decoding the issued document gives; an unhindered sync succeeds exactly when the issued plaintext is empty or a JSON document |

## Left out

- Creating the tun device, running `ip`, resolving names, signals and flags: commands are steps on the table that an oracle may fail, and the resolved address is an input.
- Parsing the output of `ip route get` (go/cmd/caravel/connect_linux.go:221-233): it is the table lookup.
- IPv6 routing, metrics, several tables, and routes changed by other programs during a session.
- gVisor, xray-core, amneziawg-go, gRPC, TLS and X.509; the relay is a dial that answers or does not.
- The inside of the cryptographic primitives; there is no claim of secrecy or unforgeability.
- The fields of a decoded profile, its times and coordinates among them: decoding a document is a parameter.
- The limit of 10000 nested levels beyond which Go refuses a document.
- Parts of Go's JSON that the formats do not print: keys matched without regard to case, a repeated object key (the last value is read here, where Go merges structs, keeps a scalar at a later null and reports an earlier value of the wrong type), replacement of invalid UTF-8 in Go strings. A raw message is kept as the value it denotes, not as its text.
- PEM headers and text around a block (go/deviceid/deviceid.go:68): the writer prints neither.
- The join-link claim (go/enroll): link parsing, relay pinning, fingerprints. Its device key is covered by the identity round trip.
- Choice of profile, node and protocol (`Select`, `Node`, `resolve`, `Prepare`, `Connect`), and listing the store.
- Failing writes and removals inside the store, and remove arguments that hold a path separator.
- The controller's own checks of tokens and revisions; it is modelled only as far as the client relies on it.
- The sealed bundle and signer key that a sync result also returns for storage at rest (go/sync/client.go:266-268).
- Writer preference of Go's RWMutex and fairness: a run is any interleaving, so every one that Go allows is covered.
- Closing of the XRay instance, the UDP path of the bridge, MTU, keepalive defaults, time and expiry.
- The wording of error messages and the positions they name.
