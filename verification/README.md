# Cloud KMS integrations: a verified model

This project models the stateful core of two programs and proves what they promise.

**kmsp11** is a PKCS #11 library over Cloud KMS. Its object loader caches the key versions of a key
ring and gives each a set of object handles; an object store is built from the loader's state and
published by a token while sessions search it; a session holds at most one operation, which is fed
by Update calls and ended by a completing call, an error or nothing at all.

**fakekms** is an in-memory Cloud KMS server: a tree of key rings, keys and versions, changed by six
RPCs and by goroutines that generate asymmetric keys in the background, under one readers/writer lock.

The modules, from the bottom up:

| module | models |
|---|---|
| `Basics`, `Permutations` | shared vocabulary |
| `Padding`, `Ecdsa` | PKCS #7 padding (section 6.3 of RFC 5652); fixed-width ECDSA signatures (section 2.3.1 of PKCS #11 Current Mechanisms v2.40) |
| `ObjectLoader`, `ObjectStore`, `Token` | the cache and its handle ledger; building and searching a store; runs of refreshes |
| `FindOp`, `Interleaving`, `RefreshOrder` | an open find; several threads refreshing one token while finds stay open; what overlapping refreshes can do |
| `Crypters`, `Session`, `Bridge` | multi-part crypters; a session as a state machine (sections 5.2 and 5.8 to 5.12 of PKCS #11 Base v2.40); the same as code over caller buffers |
| `Outcomes` | what each API call sends to KMS, and what the caller gets for which answer |
| `Pagination`, `Polling` | paged listings; waiting for key generation |
| `Yaml`, `YamlMeaning`, `YamlOrder`, `YamlErrors` | reading a YAML configuration into a message; what the message then says; what depends on the order of the document, and which errors it can report |
| `Allowlist`, `ResourceNames` | the check for unsupported request fields; resource names |
| `FakeKms`, `FakeKmsReplies`, `FakeKmsServer`, `FakeKmsLock` | the tree and the six RPCs; what each answers and changes; the server updating the tree in place; its lock and goroutines |

Code that computes a value is a function; code that updates things in place is a class with methods,
each proved to do what a function or predicate on values says. The main results are lemmas about
those functions, over all inputs or over all runs. What the code calls but does not define is a
parameter: Cloud KMS's answers (which may differ from call to call), random handles, parsers of keys
and certificates, digests, number parsers, and the clock.

## Where the code falls short of an expectation

Each of these is stated with its exact condition, in the member named.

- Storing a key under a name that is already cached would leak its handles; `BuildState` never does
  (`ObjectLoader.StoreKeepsLedger`).
- `ObjectStore::New` on a refreshed state reports a duplicate handle exactly when the listing named a
  loadable version twice (`ObjectStore.DuplicateOnlyIfListedTwice`).
- Overlapping refreshes can publish an older result after a newer one; in a reachable state they can
  go on to do so exactly if one under way is older than what is published or than another one
  (`RefreshOrder.OlderBuildCanWin`, `RefreshOrder.FallsExactly`). Without overlap it never happens
  (`Interleaving.NonOverlappingRefreshesAdvance`).
- A published handle can be free, and be given to another version while the store still shows the
  first; it has been in use ever since its build exactly if every successful build since then lists
  its version (`RefreshOrder.OlderBuildCanWin`, `RefreshOrder.PublishedInUse`).
- `Unpad` accepts inputs that are no padding (`Padding.UnpadAcceptsMore`): what it returns pads back
  to the input exactly if the length is a multiple of the block size (`Padding.UnpadExactlyPadded`).
- An empty page that announces another one ends an iteration early (`Pagination.EmptyPageStops`);
  without an error, nothing else makes an iteration lose items (`Pagination.PaginationRange.Collect`).
- Data beyond the limit is refused by every one-shot call, except exactly by a `C_Sign` that asks for
  the length or has too small a buffer (`Session.SessionChunking`).
- `UpdateCryptoKeyVersion` can enable a version whose key is still being generated; every ENABLED
  version has key material exactly as long as no RPC does that (`FakeKmsLock.GenerationStates`,
  `FakeKmsLock.EarlyEnable`).
- Of the six handlers, once the check for unsupported fields has let a request through, only
  `UpdateCryptoKey` panics: with a non-empty mask, exactly if there is no key in the request, or the
  key exists, the mask starts with the template's algorithm and there is no template
  (`FakeKms.HandleKeepsTree`).
- The check for unsupported fields itself takes a list or map of message kind for a message and
  panics. In some visiting order it does so exactly if the request has one that is not allowed, nor
  in an allowed message, nor behind unknown fields (`Allowlist.SomeOrder`); the labels of a key to
  be created are one (`Allowlist.LabelsPanic`).
- A project or location may contain a newline, which the patterns for key rings and below refuse: a
  key ring can be created under it that no request can name (`FakeKms.NewlineRing`,
  `FakeKms.NewlineLocation`). Names round-trip exactly when they are well formed
  (`ResourceNames.KeyRingRoundTrip`).
- Any Decrypt, Encrypt, Sign or Verify call on a session with an open find, whatever it returns, ends
  the find; besides C_FindObjectsFinal nothing else does (`Session.FindSpan`).
- A YAML conversion that fails reports the error of the first bad entry and keeps what came before it
  (`YamlOrder.FailureMeans`), which depends on the order of the document
  (`YamlOrder.FailureDependsOnOrder`). All orders of a map agree exactly if it converts; or the bad
  entries have one error and the others change nothing; or one key is repeated, always with one
  value, and the other entries change nothing (`YamlOrder.OrderMatters`). Which errors some order can
  report is said by `YamlErrors.SomeError`. An entry that sets a field to the default it still has
  changes nothing: messages list the default values of scalar and repeated fields.

## Model

| member | source | states |
|---|---|---|
| ObjectLoader.StoreKeepsLedger | kmsp11/object_loader.cc:94-121 | storing a key with new handles keeps "handles in use are exactly those of cached keys, all non-zero, pairwise distinct within and across keys" if and only if its name was not cached |
| ObjectLoader.EvictKeepsLedger | kmsp11/object_loader.cc:136-148 | evicting a key and freeing its handles keeps the ledger |
| ObjectLoader.Cache.NewHandle | kmsp11/object_loader.cc:152-159 | terminates with a handle in range that was not in use, and records it |
| ObjectLoader.Cache.Store | kmsp11/object_loader.cc:94-111 | caches a key pair with new, distinct handles, a certificate exactly if one is given; the ledger holds afterwards if and only if the name was new |
| ObjectLoader.Cache.StoreSecretKey | kmsp11/object_loader.cc:113-121 | the same for a secret key with its one handle |
| ObjectLoader.Cache.EvictUnused | kmsp11/object_loader.cc:123-150 | keeps exactly the cached keys that the state lists, and the ledger |
| ObjectLoader.ObjectLoader.BuildState | kmsp11/object_loader.cc:190-270 | succeeds exactly if KMS answers everything that is not cached; then the result lists the loadable versions in order, cached keys unchanged, and the cache holds just these; a failure leaves every cached key alone; the ledger is kept either way, and new keys get handles that were free at the start |
| ObjectLoader.ObjectLoader.LoadKeys | kmsp11/object_loader.cc:203-252 | the outer loop: all loadable versions absorbed in listing order, or a prefix of them and a reason why the refresh must fail |
| ObjectLoader.ObjectLoader.LoadVersions | kmsp11/object_loader.cc:209-251 | the inner loop, for the versions of one key |
| ObjectLoader.ObjectLoader.LoadVersion | kmsp11/object_loader.cc:219-250 | a cache hit, a new secret key or a new key pair; fails only for a new version that cannot be fetched, and then changes nothing |
| ObjectLoader.OneVersionLoaded | kmsp11/object_loader.cc:30-81 | a listed version is loaded if and only if its key is an HSM key for asymmetric decryption or signing, MACs or raw encryption, and it is enabled and of a supported algorithm |
| ObjectLoader.KeyItemsAppend | kmsp11/object_loader.cc:213-251 | the versions of one key are loaded in listing order, one independently of the other |
| ObjectLoader.ItemsAppend | kmsp11/object_loader.cc:203-252 | and so are the keys |
| ObjectLoader.NewKeyContents | kmsp11/object_loader.cc:225-250 | what a refresh delivers for a new version: the version, one secret handle or two key handles, the public key KMS gave, and the user's certificate for it, or else a generated one if configured, or else none |
| ObjectLoader.CanBuildMeans | kmsp11/object_loader.cc:203-247 | a refresh succeeds if and only if neither the listing of keys nor that of the versions of a loadable key fails and KMS answers for each new asymmetric version with its public key, and the certificate where one has to be generated |
| ObjectLoader.BuildMirrors | kmsp11/object_loader.cc:268-269 | a successful refresh leaves the cache equal to its result |
| Token.HandleStability | kmsp11/object_loader.cc:219-269 | over any run of refreshes, a cached version stays cached if and only if every successful refresh lists it, and then keeps its key with all handles, however many refreshes fail in between |
| Token.CacheTransparency | kmsp11/object_loader.cc:190-270 | after any run from an empty cache, a successful refresh returns the plain filter of its listing, version for version and in order, and the cache equals that result |
| Token.Token.RefreshState | kmsp11/token.cc:142-149 | succeeds if and only if the build does, no loadable version is listed twice, and objects can be made for every cached or fetched key; then the published store is the whole store of that build, and otherwise it is unchanged |
| ObjectStore.ParseStoreEntries | kmsp11/object_store.cc:33-85 | the entries of all keys in order, or failure exactly if some key fails |
| ObjectStore.New | kmsp11/object_store.cc:99-121 | a store is built if and only if the state parses into entries with distinct handles, and it maps just those handles to those objects |
| ObjectStore.StoreContents | kmsp11/object_store.cc:36-83 | a built store shows, for each key of its state, the secret key, or the public key, the private key and the certificate, each under its own handle with its own attributes, and has no other handles |
| ObjectStore.DistinctEntries | kmsp11/object_store.cc:33-85 | keys with distinct version names give entries with distinct handles and distinct (name, class) pairs |
| ObjectStore.RefreshSeparate | kmsp11/object_loader.cc:190-270 | the keys of a refreshed state share no handle, and their names are distinct if and only if the listed names are |
| ObjectStore.DuplicateOnlyIfListedTwice | kmsp11/object_store.cc:110-118 | on a refreshed state a duplicate handle is reported if and only if the listing names a loadable version twice; in a built store (name, class) is unique |
| ObjectStore.NameOrder | kmsp11/object_store.cc:90-94 | string comparison is a strict total order |
| ObjectStore.NameLessMeans | kmsp11/object_store.cc:90-94 | the smaller name is the one that ends first, or has the smaller character where they first differ |
| ObjectStore.EntryLessMeans | kmsp11/object_store.cc:89-95 | names ascending, and within a name certificates, public keys, private keys, secret keys |
| ObjectStore.EntryOrder | kmsp11/object_store.cc:89-95 | EntryCompare is a strict weak order that ties exactly the objects of equal name and class |
| ObjectStore.Find | kmsp11/object_store.cc:152-168 | for every iteration order of the hash map: the handles of exactly the matching objects, each once, sorted |
| ObjectStore.FindDeterministic | kmsp11/object_store.cc:152-168 | in a store without ties the result is the same for every iteration order |
| ObjectStore.FindSingle | kmsp11/object_store.cc:170-185 | h, NotFound or FailedPrecondition exactly when Find has the one result h, none, or more |
| FindOp.FindOp.Next | kmsp11/operation/find.h:39-51 | the next slice of at most max handles; fewer only at the end |
| FindOp.FindOp.Drain | kmsp11/operation/find.h:39-51 | any sequence of requests returns the handles in order, each once, all of them once enough were asked for |
| Interleaving.NextKeepsInv | kmsp11/token.cc:142-149 | every step of any thread keeps: build history, published store is one whole build, open finds are prefixes of their results, and the ledger (which the build steps take from what BuildState is proved to ensure) |
| Interleaving.RunKeepsInv | kmsp11/token.cc:142-149 | so in every state of every interleaving; and the published store has no two objects of one name and class, so that searching it is deterministic throughout |
| Interleaving.PublishedUntilSwap | kmsp11/token.cc:142-149 | until the next swap what is published stays the same, whatever is built, fails or is searched meanwhile |
| Interleaving.OpenFindIsStable | kmsp11/session.cc:206-249 | until it is closed or released, a find returns the handles that matched at Init time, in order, each once, for any sequence of requests and whatever is published meanwhile |
| Interleaving.HandleKeepsMeaning | kmsp11/token.h:53-69 | if a version is in every build between two stores, each of its handles denotes the same object in both |
| RefreshOrder.FallsExactly | kmsp11/token.cc:142-149 | in any state that keeps the invariant, some continuation of the refreshes under way publishes an older build after a newer one if and only if one of them, whose store can be constructed, is older than what is published or than another such one |
| RefreshOrder.OlderBuildCanWin | kmsp11/token.cc:142-149 | a run from a fresh token in which that happens; it ends with a published handle that is free, and the next refresh gives it to another version |
| RefreshOrder.InUseExactly | kmsp11/object_loader.cc:123-159 | over any run, a handle stays in use for the version that owns it if and only if every successful build lists the version |
| RefreshOrder.PublishedInUse | kmsp11/token.cc:142-149 | a published handle has been in use ever since its build if and only if every successful build since then lists its version |
| Interleaving.NonOverlappingRefreshesAdvance | kmsp11/token.cc:142-149 | a sufficient condition over whole runs: while refreshes do not overlap, what is published only gets newer |
| Padding.PadAligned | kmsp11/util/padding.cc:24-34 | padding fills up to the next block, a whole block if aligned |
| Padding.PadBytes | kmsp11/util/padding.cc:24-34 | the data, then bytes each of which is the number of bytes added |
| Padding.UnpadPad | kmsp11/util/padding.cc:24-50 | unpadding undoes padding |
| Padding.UnpadAcceptsMore | kmsp11/util/padding.cc:36-50 | a single byte 1 is no padding of anything, and is accepted |
| Padding.UnpadExactlyPadded | kmsp11/util/padding.cc:36-50 | on block-aligned input Unpad succeeds if and only if the input is a padding, of one thing only; a result pads back to the input if and only if the input is aligned |
| Crypters.FeedConcatenates | kmsp11/operation/aes_cbc.cc:86-106 | Updates succeed if and only if the concatenation is within the limit, and then leave it buffered |
| Crypters.ChunkingIndependence | kmsp11/operation/aes_cbc.cc:67-165 | Updates and Final send the same request with the same outcome as the one-shot call on the concatenation; too much data is refused either way and nothing is sent |
| Crypters.Crypter.Update | kmsp11/operation/hmac.cc:84-102 | the object refines the state function of Update |
| Crypters.Crypter.OneShot | kmsp11/operation/hmac.cc:58-82 | and that of the one-shot call, requests included |
| Crypters.Crypter.Final | kmsp11/operation/kms_digesting_signer.cc:96-128 | and that of Final |
| Crypters.Crypter.Internal | kmsp11/operation/aes_gcm.cc:119-137 | and that of the internal step, including the IV it writes to the caller's buffer |
| Session.OperationLifetime | kmsp11/main/bridge.cc:440-861 | after any Decrypt, Encrypt, Sign or Verify call, Update or Final, an operation is active if and only if the call was a successful Update, a successful length query or returned CKR_BUFFER_TOO_SMALL; it is then the same one, grown by the part of an Update and otherwise unchanged but for the IV buffer of AES-GCM |
| Session.InitOnlyFromIdle | kmsp11/session.cc:206-262 | an Init succeeds only without an active operation; a failed one changes nothing; Inits and find calls never disturb a cryptographic operation |
| Session.OperationSpan | kmsp11/session.cc:201-430 | over any run of calls, an operation stays the session's operation, holding just the parts it was given, if and only if every call that could consume it was one of the keeping ones |
| Session.FindSpan | kmsp11/session.cc:201-249 | over any run of calls, an open find stays the session's find, moved on by just the FindObjects calls, if and only if no Decrypt, Encrypt, Sign or Verify call, Update or Final and no FindObjectsFinal comes in between |
| Session.SessionChunking | kmsp11/main/bridge.cc:440-861 | through the API: Updates and Final give the same outcome, the same requests and, up to its buffer, the same remaining operation as the one-shot call; beyond the limit an Update fails and nothing is sent, and the one-shot call refuses unless it is a Sign call that asks for the length or has too small a buffer |
| Session.CbcPadRoundTrip | kmsp11/operation/aes_cbc.cc:120-263 | if under this key and IV raw decryption inverts raw encryption, what EncryptFinal delivers under CKM_AES_CBC_PAD is, in any other parts, accepted by DecryptUpdate and DecryptFinal gives back the plaintext unless its RPC fails |
| Session.CbcCiphertext | kmsp11/operation/aes_cbc.cc:120-165 | the ciphertext delivered is KMS's answer for the padded concatenation under the operation's IV |
| Session.AttemptsAreHarmless | kmsp11/main/bridge.cc:565-674 | any number of length queries and too small buffers leave the operation as it was, but for the IV buffer of AES-GCM |
| Session.RepeatableOutput | kmsp11/main/bridge.cc:565-674 | so for deterministic modes the bytes finally delivered do not depend on the attempts before |
| Session.GcmIvMatchesCiphertext | kmsp11/operation/aes_gcm.cc:119-137 | for AES-GCM the IV left in the caller's buffer and the ciphertext delivered are those of one reply, the last |
| Outcomes.HmacVerifyOutcome | kmsp11/operation/hmac.cc:165-248 | C_Verify with an HMAC key sends just MacVerify(name, data, signature) and succeeds if and only if KMS says it is valid, with CKR_SIGNATURE_INVALID if and only if KMS says it is not; too much data and a wrong signature length are refused unsent |
| Outcomes.HmacVerifyFinalOutcome | kmsp11/operation/hmac.cc:193-248 | the same for C_VerifyUpdate and C_VerifyFinal, on the concatenated parts |
| Outcomes.DigestVerifyOutcome | kmsp11/operation/kms_digesting_verifier.cc:34-71 | C_Verify with a digesting mechanism sends just the digest of the data and the signature, whatever their lengths, and gives the same verdicts |
| Outcomes.DigestVerifyFinalOutcome | kmsp11/operation/kms_digesting_verifier.cc:73-128 | and in parts, on the digest of the concatenation |
| Outcomes.HmacSignOutcome | kmsp11/operation/hmac.cc:58-135 | C_Sign with an HMAC key sends just MacSign(name, data) and hands out the MAC KMS gave; too much data is refused unsent, and without room it gives the length and sends nothing |
| Outcomes.DigestSignOutcome | kmsp11/operation/kms_digesting_signer.cc:34-71 | C_Sign with a digesting mechanism does so with the digest of the data, of any length |
| Outcomes.EncryptOutcome | kmsp11/operation/aes_cbc.cc:67-165 | C_Encrypt under CBC, CBC-PAD and CTR refuses too much data, and partial blocks under CBC; otherwise it sends just the data (padded under CBC-PAD) with the caller's IV, refuses an answer under another IV, and delivers the ciphertext as the output argument asks |
| Crypters.CopyOverMeans | kmsp11/operation/aes_gcm.cc:129-130 | an IV that fits the buffer replaces its front, and the rest of the buffer stays |
| Outcomes.GcmEncryptOutcome | kmsp11/operation/aes_gcm.cc:66-137 | under GCM it sends the data and the additional data without an IV, and leaves the IV that KMS chose in the caller's buffer if it has the buffer's length |
| Outcomes.DecryptOutcome | kmsp11/operation/aes_gcm.cc:169-231 | C_Decrypt under CBC, CTR and GCM refuses too much data; otherwise it sends the ciphertext, the IV and, under GCM, the additional data, and delivers the plaintext |
| Outcomes.PadDecryptOutcome | kmsp11/operation/aes_cbc.cc:195-263 | under CBC-PAD it delivers x whenever KMS answers the padding of x, and refuses other whole blocks |
| Outcomes.SinglePartOutcome | kmsp11/session.cc:263-430 | one-shot calls of operations without parts hand the data, and for verification the signature, on as they are; signing is for a buffer with room |
| Outcomes.UpdateOutcome | kmsp11/main/bridge.cc:484-510 | an Update appends its part, sends and delivers nothing, and is refused beyond the limit or by an operation without parts |
| Outcomes.Limits | kmsp11/operation/aes_cbc.cc:35-36 | the limits in bytes |
| Outcomes.RefusedCalls | kmsp11/main/bridge.cc:440-861 | a null argument gives CKR_ARGUMENTS_BAD, the lack of an operation of that kind CKR_OPERATION_NOT_INITIALIZED; both end the session's operation and send nothing |
| Outcomes.MixedCalls | kmsp11/operation/hmac.cc:165-173 | an operation begun in parts cannot be ended by a one-shot call, except AES decryption, nor a Final come without an Update |
| Outcomes.InitOutcome | kmsp11/main/bridge.cc:427-436 | which check each return value of an Init stands for, in order |
| Bridge.Session.Crypt | kmsp11/main/bridge.cc:440-480 | C_Decrypt and C_Encrypt do to session, KMS and caller memory exactly what the state machine says, also when the output buffer is the operation's own IV buffer |
| Bridge.Session.CryptUpdate | kmsp11/main/bridge.cc:484-510 | likewise C_DecryptUpdate and C_EncryptUpdate |
| Bridge.Session.CryptFinal | kmsp11/main/bridge.cc:514-548 | likewise C_DecryptFinal and C_EncryptFinal |
| Bridge.Session.Sign | kmsp11/main/bridge.cc:691-732 | likewise C_Sign, which knows the length before it signs |
| Bridge.Session.SignUpdate | kmsp11/main/bridge.cc:736-751 | likewise C_SignUpdate |
| Bridge.Session.SignFinal | kmsp11/main/bridge.cc:755-791 | likewise C_SignFinal |
| Bridge.Session.Verify | kmsp11/main/bridge.cc:808-826 | likewise C_Verify |
| Bridge.Session.VerifyUpdate | kmsp11/main/bridge.cc:830-845 | likewise C_VerifyUpdate |
| Bridge.Session.VerifyFinal | kmsp11/main/bridge.cc:849-861 | likewise C_VerifyFinal |
| Bridge.Session.Init | kmsp11/session.cc:251-261 | likewise the four Init calls |
| Bridge.Session.FindObjectsInit | kmsp11/session.cc:206-226 | likewise C_FindObjectsInit |
| Bridge.Session.FindObjects | kmsp11/session.cc:228-238 | likewise C_FindObjects |
| Bridge.Session.FindObjectsFinal | kmsp11/session.cc:240-249 | likewise C_FindObjectsFinal |
| Pagination.PaginationRange.GetNext | common/pagination_range.h:182-209 | the next item, an error or the end; the loader is called only at the end of a page that is not the last, with the previous response's token |
| Pagination.PaginationRange.Collect | common/pagination_range.h:182-209 | iterating calls the loader once per page up to the first response that is an error, final or empty, delivers the concatenation of those pages, and an error exactly if that response is one |
| Pagination.EmptyPageStops | common/pagination_range.h:204-206 | a server whose first page is empty and announces a second one with an item: the iteration stops without it |
| Pagination.PaginationRange.AfterLast | common/pagination_range.h:185-188 | after the final page or an error every further call returns the end and asks for nothing |
| Polling.BackoffBounds | common/backoff.cc:21-50 | the delay starts at the coerced minimum, is monotone in the retries and stays within the coerced bounds, for all arguments |
| Polling.BackoffStep | common/backoff.cc:42-49 | over the reals, each retry waits exactly 1.3 times as long as the one before, up to the coerced maximum |
| Polling.CoercedBounds | common/backoff.cc:23-34 | the bounds are those given if they are at least a nanosecond and in order |
| Polling.BackoffReachesMax | common/backoff.cc:42-45 | enough retries reach the coerced maximum |
| Polling.WaitIsBounded | common/kms_client.cc:529-552 | at most floor((deadline - now) / 20 ms) + 1 polls, one if the deadline is past; the delays before all polls but the last fit before the deadline; success if and only if the version is no longer pending |
| Polling.WaitAsks | common/kms_client.cc:537-550 | if the server answers about the name it is asked for, a wait ends with the version it began with or with what the server said about that name when asked before the deadline |
| Polling.WaitForGeneration | common/kms_client.cc:529-552 | the loop does just that to the version it is given, and terminates |
| Polling.CreateAndWait | common/kms_client.cc:387-403 | a version is returned only if it is not pending |
| Ecdsa.FitsExactly | kmsp11/util/crypto_utils.cc:147-155 | a number takes at most n bytes if and only if it is below 256 to the n |
| Ecdsa.DecodeReads | kmsp11/util/crypto_utils.cc:248-272 | the verifier accepts exactly the even lengths up to that of the group, and reads r from the first half and s from the second, byte k of a half of h bytes weighing 256 to the h - 1 - k |
| Ecdsa.DecodeEncode | kmsp11/util/crypto_utils.cc:206-276 | what is encoded in the group's fixed width has exactly that length and is read back by the verifier |
| Ecdsa.EncodeDecode | kmsp11/util/crypto_utils.cc:248-276 | whatever the verifier reads can be encoded again, giving back the signature but for leading zeros of each half, and exactly it if it has full length |
| Ecdsa.BignumToBinary | kmsp11/util/crypto_utils.cc:146-167 | succeeds if and only if the number fits, fills its part of the buffer with the fixed-width form, and touches nothing else |
| Ecdsa.EcdsaSigAsn1ToP1363 | kmsp11/util/crypto_utils.cc:206-228 | succeeds if and only if the signature parses and both numbers fit; the result has full length, its first half is worth r and its second s, and the verifier reads (r, s) from it |
| Yaml.ConvertMeans | kmsp11/config/protoyaml.cc:160-194 | a conversion succeeds if and only if the document is null or a map with distinct scalar keys naming fields, each with a suitable value; it sets just those fields to just those values; whatever the outcome, a field is left alone or replaced as a whole |
| YamlMeaning.ConvertExactly | kmsp11/config/protoyaml.cc:37-194 | a conversion yields a message if and only if the document means it: a text field holds the text, a number or flag field what the text parses to, a repeated field one text or message per item in order, a message field a new message of which the same is true, and all other fields are as before |
| YamlMeaning.BlankField | kmsp11/config/protoyaml.cc:88-90 | what the fields of a new message hold |
| Yaml.OrderIndependent | kmsp11/config/protoyaml.cc:160-194 | permuting the entries of maps at any depth changes neither success nor the message on success |
| Yaml.FieldOrderIndependent | kmsp11/config/protoyaml.cc:147-156 | the same for the value of one field, whatever its type |
| Yaml.ConvertKeepsComplete | kmsp11/config/protoyaml.cc:160-194 | every scalar and repeated field always has a value, its default in a new message |
| YamlOrder.FailureMeans | kmsp11/config/protoyaml.cc:169-192 | a map that is not accepted has a first bad entry; the conversion reports its error, with exactly the entries before it applied |
| YamlOrder.OrderMatters | kmsp11/config/protoyaml.cc:169-192 | for every map and message: status and message are the same for every order of the entries if and only if all are good and no key is repeated, or all bad ones have one error (that of a repeated key if a good one is repeated) and all others say what the message holds already, or just one key is repeated, always with one value, and all others say what the message holds already |
| YamlOrder.FailureDependsOnOrder | kmsp11/config/protoyaml.cc:169-192 | inputs where they are not: next to a refused entry, the two orders of an entry differ if and only if it fails with the other error or says what the message does not hold |
| YamlErrors.SomeError | kmsp11/config/protoyaml.cc:75-194 | some order of map entries, at any depth, makes the conversion report an error if and only if something in the document fails with it and nothing with a fixed place before it fails |
| Yaml.SetScalarField | kmsp11/config/protoyaml.cc:37-73 | sets the field to the parsed scalar, or leaves the message alone |
| Yaml.SetRepeatedField | kmsp11/config/protoyaml.cc:75-132 | replaces the whole field by the converted items, or leaves the message alone |
| Yaml.SetField | kmsp11/config/protoyaml.cc:134-156 | the same for every kind of field |
| Yaml.YamlToProto | kmsp11/config/protoyaml.cc:160-194 | the loop over the entries refines the conversion |
| Allowlist.CheckInternal | fakekms/proto_allowlist.go:36-65 | the recursive walk over a message refines its specification |
| Allowlist.WalkOutcome | fakekms/proto_allowlist.go:36-65 | in any one visiting order the walk accepts if and only if there are no unknown fields and every field is allowed or a single message of which that holds; otherwise it ends only with what the message offends by |
| Allowlist.SomeOrder | fakekms/proto_allowlist.go:44-63 | over all visiting orders at all depths: some order accepts if and only if the message is clean; some order refuses, or panics, if and only if the message has an offending field of that sort that the walk can reach |
| Allowlist.ChainOutcome | fakekms/proto_allowlist.go:41-62 | in a message with one field per level, to any depth, the innermost field is accepted if and only if its path, names joined by dots, or that of a message it is in is allowed |
| Allowlist.LabelsPanic | fakekms/crypto_key_rpcs.go:29-33 | so CreateCryptoKey with labels can panic |
| ResourceNames.LocationRoundTrip | fakekms/resource_names.go:45-62 | a string parses as a location name if and only if it is the printed form of it and the name is well formed |
| ResourceNames.KeyRingRoundTrip | fakekms/resource_names.go:69-84 | likewise for key rings |
| ResourceNames.CryptoKeyRoundTrip | fakekms/resource_names.go:91-106 | likewise for keys |
| ResourceNames.VersionRoundTrip | fakekms/resource_names.go:113-128 | likewise for versions |
| ResourceNames.TailMatches | fakekms/resource_names.go:27-29 | the greedy pattern prefix/collection/id has exactly one reading of a string |
| ResourceNames.WrittenNames | fakekms/resource_names.go:56-128 | the printed names, written out |
| ResourceNames.IdCharacters | fakekms/resource_names.go:22-39 | which IDs are valid |
| ResourceNames.KeyIdExtracted | kmsp11/util/string_utils.cc:60-70 | ExtractKeyId recovers the key ID of every version name that fakekms accepts |
| ResourceNames.LocationExtracted | kmsp11/util/string_utils.cc:72-81 | ExtractLocationName recovers the location of every key ring name that fakekms accepts |
| FakeKms.AtoiItoa | fakekms/crypto_key_version_rpcs.go:52 | decimal version IDs are distinct for distinct numbers: reading undoes printing |
| FakeKms.ItoaDigits | fakekms/crypto_key_version_rpcs.go:52 | decimal digits, the most significant first |
| FakeKms.CreateVersionIsSafe | fakekms/crypto_key_version_rpcs.go:48-92 | for a well-formed key the name parses and the algorithm is known, so the errors createVersion ignores cannot occur, and the new name is not taken |
| FakeKms.HandleKeepsTree | fakekms/crypto_key_rpcs.go:27-187 | every RPC keeps the tree invariant: version IDs are 1 to n, stored names print their map keys, every version and the template have the key's purpose, exactly the versions without key material have a goroutine; and a handler panics if and only if it is UpdateCryptoKey with a non-empty mask and without a key, or for an existing key with a mask that starts with the algorithm of a template that is missing |
| FakeKms.GenerationKeepsTree | fakekms/crypto_key_version_rpcs.go:76-82 | finishing a generation keeps the invariant |
| FakeKms.PatchKeyOk | fakekms/crypto_key_rpcs.go:174-184 | however far the update mask gets, the key keeps its purpose and an algorithm of that purpose |
| FakeKms.HandleEffect | fakekms/crypto_key_version_rpcs.go:149-215 | what any RPC does to any one version: an existing one at most has its state set as requested, a new one is enabled with material or pending without |
| FakeKms.CreateAddsNext | fakekms/crypto_key_version_rpcs.go:28-44 | creating a version on an existing key succeeds, and adds number n + 1 to 1 to n, overwriting nothing |
| FakeKms.EnabledKeptExactly | fakekms/crypto_key_version_rpcs.go:168-181 | an RPC keeps "every ENABLED version has key material" if and only if it does not enable a version still being generated |
| FakeKms.PendingStatesKept | fakekms/crypto_key_version_rpcs.go:168-207 | an RPC keeps "PENDING_GENERATION exactly while being generated" if and only if it does not set the state of such a version |
| FakeKms.GenerationKeepsStates | fakekms/crypto_key_version_rpcs.go:76-82 | finishing a generation keeps both |
| FakeKms.StoredNamesResolve | fakekms/crypto_key_version_rpcs.go:49-56 | every stored version is found again under the name it is listed with |
| FakeKms.ListedNamesDistinct | fakekms/crypto_key_version_rpcs.go:49-56 | no two versions in the tree are listed under one name |
| FakeKms.NewlineRing | fakekms/key_ring_rpcs.go:32-53 | under every location with a newline a ring is created, and the name it is stored with does not parse |
| FakeKms.NewlineLocation | fakekms/resource_names.go:26 | there is such a location |
| FakeKmsReplies.CreateKeyRingReply | fakekms/key_ring_rpcs.go:32-54 | the reply to every request that passes the allowlist, and the tree after it |
| FakeKmsReplies.CreateCryptoKeyRefused | fakekms/crypto_key_rpcs.go:35-63 | what is refused whatever the tree, with which code, and that nothing changes |
| FakeKmsReplies.CreateCryptoKeyReply | fakekms/crypto_key_rpcs.go:65-97 | otherwise NOT_FOUND without the ring, ALREADY_EXISTS with the key, and else exactly the requested key is stored, with its defaults and one version unless skipped |
| FakeKmsReplies.CreateVersionReply | fakekms/crypto_key_version_rpcs.go:33-92 | in a well-formed tree, the reply to every request that passes the allowlist; the new version has the key's algorithm and protection level, waits for its key material if and only if it is asymmetric, and nothing else changes |
| FakeKmsReplies.UpdateKeyReply | fakekms/crypto_key_rpcs.go:169-187 | of an existing key the algorithm is stored if and only if the mask starts with it and it has the key's purpose, also if a later path is refused; nothing else changes; and the code for every mask |
| FakeKmsReplies.UpdateKeyRefused | fakekms/crypto_key_rpcs.go:160-172 | the other requests, in order of the checks |
| FakeKmsReplies.UpdateVersionReply | fakekms/crypto_key_version_rpcs.go:154-184 | the code for every request that passes the allowlist |
| FakeKmsReplies.DestroyReply | fakekms/crypto_key_version_rpcs.go:192-215 | the code for every request that passes the allowlist |
| FakeKmsReplies.AlgorithmPurposes | fakekms/kms_enums.go:42-212 | which algorithms have which purpose |
| FakeKmsServer.Server.CreateKeyRing | fakekms/key_ring_rpcs.go:26-54 | updates the tree and answers as the sequential specification says |
| FakeKmsServer.Server.CreateCryptoKey | fakekms/crypto_key_rpcs.go:27-98 | likewise, with the checks in their order |
| FakeKmsServer.Server.CreateVersion | fakekms/crypto_key_version_rpcs.go:48-92 | adds the next version, with a goroutine exactly if it has no key material yet; leaves key and goroutines alone when it would panic |
| FakeKmsServer.Server.CreateCryptoKeyVersion | fakekms/crypto_key_version_rpcs.go:28-44 | likewise |
| FakeKmsServer.Server.UpdateCryptoKey | fakekms/crypto_key_rpcs.go:155-187 | likewise; earlier paths of the mask stay applied when a later one is refused |
| FakeKmsServer.Server.ApplyKeyPaths | fakekms/crypto_key_rpcs.go:174-184 | the loop over the mask refines its recursive specification |
| FakeKmsServer.Server.UpdateCryptoKeyVersion | fakekms/crypto_key_version_rpcs.go:149-184 | likewise |
| FakeKmsServer.Server.ApplyVersionPaths | fakekms/crypto_key_version_rpcs.go:168-181 | the loop over the mask refines its recursive specification |
| FakeKmsServer.Server.DestroyCryptoKeyVersion | fakekms/crypto_key_version_rpcs.go:187-215 | likewise |
| FakeKmsServer.Server.Serve | fakekms/interceptor.go:47-57 | whatever RPC is dispatched, the tree stays well formed and is what the specification says |
| FakeKmsLock.PublishIsAtomic | fakekms/interceptor.go:54-57 | though an agent works from the tree it saw on taking the lock, publishing has the sequential effect on the current tree; a reader's changes nothing |
| FakeKmsLock.RunKeepsInv | fakekms/interceptor.go:40-68 | in every state of every interleaving the tree is well formed, an exclusive holder is alone, and views are current until published |
| FakeKmsLock.MutualExclusion | fakekms/interceptor.go:40-55 | two agents hold the lock together only if both are read-only RPCs; so a generation finishes with no RPC in flight |
| FakeKmsLock.Serializable | fakekms/interceptor.go:26-70 | every reachable tree and every reply given is that of serving the same RPCs and generations one after the other |
| FakeKmsLock.Realizable | fakekms/interceptor.go:26-70 | conversely, every sequential history is that of some run |
| FakeKmsLock.ReadersSeeOneTree | fakekms/interceptor.go:41-46 | while an RPC with a read lock is served the tree does not change |
| FakeKmsLock.ReadersOverlap | fakekms/interceptor.go:41-46 | read-only RPCs can be served at the same time |
| FakeKmsLock.VersionsPersist | fakekms/crypto_key_version_rpcs.go:149-215 | over any run no version is lost, renamed or given another algorithm, and none loses its key material |
| FakeKmsLock.GenerationStates | fakekms/crypto_key_version_rpcs.go:65-88 | over any run every ENABLED version has key material throughout if and only if no RPC enables a version being generated; PENDING_GENERATION is accurate throughout if and only if no RPC sets the state of one; the second condition gives both |
| FakeKmsLock.GenerationCompletes | fakekms/crypto_key_version_rpcs.go:68-82 | undisturbed, a goroutine moves its version from PENDING_GENERATION to ENABLED with key material, no other, holding the lock alone |
| FakeKmsLock.EarlyEnable | fakekms/crypto_key_version_rpcs.go:168-181 | under every well-formed key name there is a run that ends with an ENABLED version without key material |

## Left out

- Crypters.CopyOver: an IV longer than the buffer is cut to it, where the original copies it all; the model covers replies that fit.
- ObjectLoader.Cache.NewHandle: termination assumes that the random source keeps drawing every handle, and that fewer handles are in use than exist; the code draws uniformly from a larger range.
- Interleaving.NextKeepsInv: takes BuildState, building the store, the swap and each find call as one step each, since the first, third and fourth run under a lock and the second touches only what its thread owns.
- RefreshOrder.FallsExactly: about the refreshes under way; a refresh that starts later can always be swapped in before an older one.
- YamlOrder.OrderMatters: about the order of one map; orders further down change only the error, as `YamlErrors.SomeError` says.
- Session.RepeatableOutput: assumes that KMS answers equal requests equally; nothing can be said otherwise.
- Session.CbcPadRoundTrip: a plaintext that KMS returns empty makes Unpad read past its input; the model calls that outcome undefined, and it cannot arise from what the encrypter sent.
- Padding.UnpadExactlyPadded: requires a non-empty input, as the code reads its last byte unconditionally.
- Ecdsa.BignumToBinary: for zero the code takes the address one past the end of the buffer and writes nothing there; the model takes that as harmless.
- Polling.WaitIsBounded: uses exact real arithmetic and takes from gRPC that a call sent at or after its deadline fails.
- Yaml.OrderIndependent: covers messages without oneof and `optional` fields, like those the library defines; fields of a oneof would clear one another.
- FakeKms.StoredNamesResolve: assumes fewer than 10 to the 63 versions of a key, beyond which the version ID is too long for the name pattern.
- FakeKmsLock.RunKeepsInv: lets runs go on after a panicking handler, where the real process ends, and ignores that a waiting writer holds up new readers; both only add runs.
- Keys, versions and rings carry no timestamps, labels, primary version or other attributes that nothing modelled here reads.
- FakeKms.HandleKeepsTree: takes requests that have only the fields their handler allows; what the check before it does with others is in `Allowlist`.
- Get, List and cryptographic RPCs of fakekms are one read-only request: they share the lock but do not change the tree.
- C_GenerateKey, C_GenerateKeyPair, C_DestroyObject and C_GenerateRandom, which make single RPCs and a refresh.
- Mechanism tables, attribute construction, DER and PEM parsing, certificates, signatures and digests, which are tables or foreign code.
- Session handles, slots, login, logging, fork handling, configuration files and the gRPC plumbing.
- kmscng, the Windows provider, which repeats this logic behind another API, and all build, sample and tool code.
