/** fakekms: the resource tree of the fake KMS server and the RPCs that change it
    (fakekms.go, key_ring_rpcs.go, crypto_key_rpcs.go, crypto_key_version_rpcs.go, kms_enums.go). */
module FakeKms {
  import opened Basics
  import opened ResourceNames

  // ---------------------------------------------------------------------------------------
  // kms_enums.go
  // ---------------------------------------------------------------------------------------

  /** The purpose of an algorithm in the `algorithms` table; None if it is not there. */
  function PurposeOf(algorithm: Algorithm): Option<Purpose> {
    match algorithm
    case AlgorithmUnspecified | OtherAlgorithm(_) => None
    case GoogleSymmetricEncryption => Some(EncryptDecrypt)
    case Aes128Gcm | Aes256Gcm | Aes128Ctr | Aes256Ctr | Aes128Cbc | Aes256Cbc => Some(RawEncryptDecrypt)
    case RsaDecryptOaep2048Sha256 | RsaDecryptOaep3072Sha256
       | RsaDecryptOaep4096Sha256 | RsaDecryptOaep4096Sha512 => Some(AsymmetricDecrypt)
    case HmacSha1 | HmacSha224 | HmacSha256 | HmacSha384 | HmacSha512 => Some(Mac)
    case _ => Some(AsymmetricSign)
  }

  predicate Asymmetric(purpose: Purpose) { purpose.AsymmetricDecrypt? || purpose.AsymmetricSign? }

  datatype Code =
    | OK | InvalidArgument | NotFound | AlreadyExists | FailedPrecondition | Unimplemented | Panic

  function ValidateAlgorithm(algorithm: Algorithm, purpose: Purpose): Code {
    match PurposeOf(algorithm)
    case None => Unimplemented
    case Some(p) => if p == purpose then OK else InvalidArgument
  }

  // ---------------------------------------------------------------------------------------
  // strconv.Itoa
  // ---------------------------------------------------------------------------------------

  function Itoa(n: nat): (s: string)
    ensures s != [] && forall i :: 0 <= i < |s| ==> '0' <= s[i] <= '9'
  {
    var digit := "0123456789"[n % 10];
    if n < 10 then [digit] else Itoa(n / 10) + [digit]
  }

  function DigitValue(c: char): nat { if c < '0' then 0 else c as int - '0' as int }

  function Atoi(s: string): nat {
    if s == [] then 0 else 10 * Atoi(s[..|s| - 1]) + DigitValue(s[|s| - 1])
  }

  lemma {:induction false} AtoiItoa(n: nat)
    ensures Atoi(Itoa(n)) == n
  {
    var digit := "0123456789"[n % 10];
    assert DigitValue(digit) == n % 10;
    if n < 10 {
      assert [digit][..0] == [];
    } else {
      AtoiItoa(n / 10);
      assert (Itoa(n / 10) + [digit])[..|Itoa(n / 10)|] == Itoa(n / 10);
    }
  }

  /** One digit after the other, the most significant first. */
  lemma ItoaDigits(n: nat, d: nat)
    requires d < 10
    ensures Itoa(d) == [('0' as int + d) as char]
    ensures n > 0 ==> Itoa(10 * n + d) == Itoa(n) + Itoa(d)
  {
    assert (10 * n + d) % 10 == d && (10 * n + d) / 10 == n;
  }

  lemma {:induction false} ItoaLength(n: nat, digits: nat, bound: nat)
    requires digits > 0 && bound == Power10(digits) && n < bound
    ensures |Itoa(n)| <= digits
  {
    if n >= 10 {
      ItoaLength(n / 10, digits - 1, Power10(digits - 1));
    }
  }

  function Power10(k: nat): nat { if k == 0 then 1 else 10 * Power10(k - 1) }

  // ---------------------------------------------------------------------------------------
  // The tree
  // ---------------------------------------------------------------------------------------

  datatype Version = Version(
    name: string, state: VersionState, algorithm: Algorithm, protection: ProtectionLevel, hasMaterial: bool)

  datatype CryptoKey = CryptoKey(
    name: string, purpose: Purpose, algorithm: Algorithm, protection: ProtectionLevel,
    versions: map<VersionName, Version>)

  datatype KeyRing = KeyRing(name: string, keys: map<CryptoKeyName, CryptoKey>)

  /** `pending`: versions whose generating goroutine has not finished yet. */
  datatype Tree = Tree(rings: map<KeyRingName, KeyRing>, pending: set<VersionName>)

  predicate HasKey(t: Tree, k: CryptoKeyName) { k.keyRing in t.rings && k in t.rings[k.keyRing].keys }

  function KeyAt(t: Tree, k: CryptoKeyName): CryptoKey
    requires HasKey(t, k)
  {
    t.rings[k.keyRing].keys[k]
  }

  predicate HasVersion(t: Tree, v: VersionName) {
    HasKey(t, v.cryptoKey) && v in KeyAt(t, v.cryptoKey).versions
  }

  function VersionAt(t: Tree, v: VersionName): Version
    requires HasVersion(t, v)
  {
    KeyAt(t, v.cryptoKey).versions[v]
  }

  function PutKey(t: Tree, k: CryptoKeyName, key: CryptoKey): Tree
    requires k.keyRing in t.rings
  {
    var ring := t.rings[k.keyRing];
    t.(rings := t.rings[k.keyRing := ring.(keys := ring.keys[k := key])])
  }

  function PutVersion(t: Tree, v: VersionName, version: Version): Tree
    requires HasKey(t, v.cryptoKey)
  {
    var key := KeyAt(t, v.cryptoKey);
    PutKey(t, v.cryptoKey, key.(versions := key.versions[v := version]))
  }

  // ---------------------------------------------------------------------------------------
  // The RPCs
  // ---------------------------------------------------------------------------------------

  /** Requests, with the fields the allowlists admit. `template` is None where the request leaves
      out version_template, `patch` where it leaves out crypto_key. */
  datatype KeyPatch = KeyPatch(name: string, template: Option<Algorithm>)

  datatype Rpc =
    | CreateKeyRing(parent: string, id: string)
    | CreateCryptoKey(parent: string, id: string, purpose: Purpose, algorithm: Algorithm,
                      protection: ProtectionLevel, skipInitialVersion: bool)
    | CreateCryptoKeyVersion(parent: string)
    | UpdateCryptoKey(patch: Option<KeyPatch>, paths: seq<string>)
    | UpdateCryptoKeyVersion(name: string, state: VersionState, paths: seq<string>)
    | DestroyCryptoKeyVersion(name: string)
    | ReadOnly

  /** Where Go discards the error of parseCryptoKeyName it goes on with the zero value. */
  const ZERO_KEY_NAME := CryptoKeyName(KeyRingName(LocationName([], []), []), [])

  function NextVersionName(key: CryptoKey): VersionName {
    var k := match ParseCryptoKey(key.name) case Some(k) => k case None => ZERO_KEY_NAME;
    VersionName(k, Itoa(|key.versions| + 1))
  }

  /** The version createVersion adds; an unknown algorithm makes it call a nil key factory. */
  function NewVersion(key: CryptoKey): Option<Version> {
    match PurposeOf(key.algorithm)
    case None => None
    case Some(purpose) =>
      Some(Version(NextVersionName(key).Print(),
                   if Asymmetric(purpose) then PendingGeneration else Enabled,
                   key.algorithm, key.protection, !Asymmetric(purpose)))
  }

  /** createVersion on `key`, which is or becomes the key named `k`; a pending version comes with
      a goroutine that will finish it. */
  function AddVersion(t: Tree, k: CryptoKeyName, key: CryptoKey): (Tree, Code)
    requires k.keyRing in t.rings
  {
    match NewVersion(key)
    case None => (t, Panic)
    case Some(version) =>
      var v := NextVersionName(key);
      var t' := PutKey(t, k, key.(versions := key.versions[v := version]));
      (if version.hasMaterial then t' else t'.(pending := t.pending + {v}), OK)
  }

  function DoCreateKeyRing(t: Tree, parent: Option<LocationName>, id: string): (Tree, Code) {
    match parent
    case None => (t, InvalidArgument)
    case Some(location) =>
      var r := KeyRingName(location, id);
      if !ValidId(id) then (t, InvalidArgument)
      else if r in t.rings then (t, AlreadyExists)
      else (t.(rings := t.rings[r := KeyRing(r.Print(), map[])]), OK)
  }

  /** The checks of CreateCryptoKey, in order. */
  function CheckNewKey(t: Tree, parent: Option<KeyRingName>, id: string, template: CryptoKey): Code {
    if parent.None? || !ValidId(id) || template.purpose.PurposeUnspecified? then InvalidArgument
    else if ValidateAlgorithm(template.algorithm, template.purpose) != OK
    then ValidateAlgorithm(template.algorithm, template.purpose)
    else if !template.protection.Software? && !template.protection.Hsm? then Unimplemented
    else if parent.value !in t.rings then NotFound
    else if CryptoKeyName(parent.value, id) in t.rings[parent.value].keys then AlreadyExists
    else OK
  }

  /** The key to be, with defaults for the algorithm and the protection level. */
  function KeyTemplate(purpose: Purpose, algorithm: Algorithm, protection: ProtectionLevel): CryptoKey {
    CryptoKey([], purpose,
              if algorithm.AlgorithmUnspecified? then GoogleSymmetricEncryption else algorithm,
              if protection.ProtectionUnspecified? then Software else protection, map[])
  }

  function DoCreateCryptoKey(t: Tree, parent: Option<KeyRingName>, id: string, template: CryptoKey, skip: bool): (Tree, Code) {
    var code := CheckNewKey(t, parent, id, template);
    if code != OK then (t, code)
    else
      var k := CryptoKeyName(parent.value, id);
      InsertKey(t, k, template.(name := k.Print()), skip)
  }

  function InsertKey(t: Tree, k: CryptoKeyName, key: CryptoKey, skip: bool): (Tree, Code)
    requires k.keyRing in t.rings
  {
    if skip then (PutKey(t, k, key), OK) else AddVersion(t, k, key)
  }

  function DoCreateVersion(t: Tree, parent: Option<CryptoKeyName>): (Tree, Code) {
    match parent
    case None => (t, InvalidArgument)
    case Some(k) => if HasKey(t, k) then AddVersion(t, k, KeyAt(t, k)) else (t, NotFound)
  }

  /** The loop over the update mask: earlier paths stay applied when a later one is refused. */
  function PatchKey(key: CryptoKey, template: Option<Algorithm>, paths: seq<string>): (CryptoKey, Code)
    decreases |paths|
  {
    if paths == [] then (key, OK)
    else if paths[0] != "version_template.algorithm" then (key, InvalidArgument)
    else if template.None? then (key, Panic)
    else if ValidateAlgorithm(template.value, key.purpose) != OK
    then (key, ValidateAlgorithm(template.value, key.purpose))
    else PatchKey(key.(algorithm := template.value), template, paths[1..])
  }

  function DoUpdateKey(t: Tree, name: Option<CryptoKeyName>, template: Option<Algorithm>, paths: seq<string>): (Tree, Code) {
    match name
    case None => (t, InvalidArgument)
    case Some(k) =>
      if !HasKey(t, k) then (t, NotFound)
      else
        var (key, code) := PatchKey(KeyAt(t, k), template, paths);
        (PutKey(t, k, key), code)
  }

  function PatchVersion(version: Version, state: VersionState, paths: seq<string>): (Version, Code)
    decreases |paths|
  {
    if paths == [] then (version, OK)
    else if paths[0] != "state" || (!state.Enabled? && !state.Disabled?) then (version, InvalidArgument)
    else PatchVersion(version.(state := state), state, paths[1..])
  }

  function DoUpdateVersion(t: Tree, name: Option<VersionName>, state: VersionState, paths: seq<string>): (Tree, Code) {
    if paths == [] then (t, InvalidArgument)
    else
      match name
      case None => (t, InvalidArgument)
      case Some(v) =>
        if !HasVersion(t, v) then (t, NotFound)
        else
          var (version, code) := PatchVersion(VersionAt(t, v), state, paths);
          (PutVersion(t, v, version), code)
  }

  function DoDestroy(t: Tree, name: Option<VersionName>): (Tree, Code) {
    match name
    case None => (t, InvalidArgument)
    case Some(v) =>
      if !HasVersion(t, v) then (t, NotFound)
      else
        var version := VersionAt(t, v);
        if !version.state.Enabled? && !version.state.Disabled? then (t, FailedPrecondition)
        else (PutVersion(t, v, version.(state := DestroyScheduled)), OK)
  }

  function Handle(t: Tree, rpc: Rpc): (Tree, Code) {
    match rpc
    case CreateKeyRing(parent, id) => DoCreateKeyRing(t, ParseLocation(parent), id)
    case CreateCryptoKey(parent, id, purpose, algorithm, protection, skip) =>
      DoCreateCryptoKey(t, ParseKeyRing(parent), id, KeyTemplate(purpose, algorithm, protection), skip)
    case CreateCryptoKeyVersion(parent) => DoCreateVersion(t, ParseCryptoKey(parent))
    case UpdateCryptoKey(patch, paths) =>
      if paths == [] then (t, InvalidArgument)
      else if patch.None? then (t, Panic)
      else DoUpdateKey(t, ParseCryptoKey(patch.value.name), patch.value.template, paths)
    case UpdateCryptoKeyVersion(name, state, paths) => DoUpdateVersion(t, ParseVersion(name), state, paths)
    case DestroyCryptoKeyVersion(name) => DoDestroy(t, ParseVersion(name))
    case ReadOnly => (t, OK)
  }

  /** The critical section of the generating goroutine. */
  function FinishGeneration(t: Tree, v: VersionName): Tree
    requires HasVersion(t, v)
  {
    PutVersion(t, v, VersionAt(t, v).(hasMaterial := true, state := Enabled)).(pending := t.pending - {v})
  }

  // ---------------------------------------------------------------------------------------
  // The tree invariant
  // ---------------------------------------------------------------------------------------

  /** The names of versions 1 .. n of key `k`. */
  function Numbered(k: CryptoKeyName, n: nat): set<VersionName> {
    set i | 1 <= i <= n :: VersionName(k, Itoa(i))
  }

  lemma NextIsNew(k: CryptoKeyName, n: nat)
    ensures VersionName(k, Itoa(n + 1)) !in Numbered(k, n)
    ensures Numbered(k, n + 1) == Numbered(k, n) + {VersionName(k, Itoa(n + 1))}
  {
    forall i | 1 <= i <= n ensures Itoa(i) != Itoa(n + 1) {
      AtoiItoa(i);
      AtoiItoa(n + 1);
    }
  }

  predicate VersionOk(v: VersionName, version: Version, purpose: Purpose) {
    version.name == v.Print() && PurposeOf(version.algorithm) == Some(purpose)
  }

  /** The stored name prints the map key and parses; the template algorithm and every version's
      algorithm have the key's purpose; the version IDs are exactly 1 .. n. */
  predicate KeyOk(k: CryptoKeyName, key: CryptoKey) {
    && k.WellFormed() && key.name == k.Print()
    && PurposeOf(key.algorithm) == Some(key.purpose)
    && key.versions.Keys == Numbered(k, |key.versions|)
    && forall v :: v in key.versions ==> VersionOk(v, key.versions[v], key.purpose)
  }

  predicate RingOk(r: KeyRingName, ring: KeyRing) {
    && ring.name == r.Print() && r.location.WellFormed() && ValidId(r.id)
    && forall k :: k in ring.keys ==> k.keyRing == r && KeyOk(k, ring.keys[k])
  }

  predicate RingsOk(t: Tree) { forall r :: r in t.rings ==> RingOk(r, t.rings[r]) }

  /** Exactly the versions without key material have a goroutine at work. */
  ghost predicate PendingOk(t: Tree) {
    forall v :: v in t.pending <==> HasVersion(t, v) && !VersionAt(t, v).hasMaterial
  }

  ghost predicate TreeOk(t: Tree) { RingsOk(t) && PendingOk(t) }

  lemma PutKeyLookups(t: Tree, k: CryptoKeyName, key: CryptoKey)
    requires k.keyRing in t.rings
    ensures var t' := PutKey(t, k, key);
            && HasKey(t', k) && KeyAt(t', k) == key
            && (forall j :: j != k ==> (HasKey(t', j) <==> HasKey(t, j)))
            && (forall j :: j != k && HasKey(t, j) ==> KeyAt(t', j) == KeyAt(t, j))
  {
  }

  lemma PutKeyVersions(t: Tree, k: CryptoKeyName, key: CryptoKey, u: VersionName)
    requires k.keyRing in t.rings
    ensures var t' := PutKey(t, k, key);
            if u.cryptoKey == k then
              && (HasVersion(t', u) <==> u in key.versions)
              && (u in key.versions ==> VersionAt(t', u) == key.versions[u])
            else
              && (HasVersion(t', u) <==> HasVersion(t, u))
              && (HasVersion(t, u) ==> VersionAt(t', u) == VersionAt(t, u))
  {
  }

  lemma PutVersionLookups(t: Tree, v: VersionName, version: Version, u: VersionName)
    requires HasVersion(t, v)
    ensures var t' := PutVersion(t, v, version);
            && (HasVersion(t', u) <==> HasVersion(t, u))
            && (HasVersion(t, u) ==> VersionAt(t', u) == if u == v then version else VersionAt(t, u))
  {
  }

  lemma PutKeyOk(t: Tree, k: CryptoKeyName, key: CryptoKey)
    requires RingsOk(t) && k.keyRing in t.rings && KeyOk(k, key)
    ensures RingsOk(PutKey(t, k, key))
  {
  }

  lemma NextName(k: CryptoKeyName, key: CryptoKey)
    requires k.WellFormed() && key.name == k.Print()
    ensures ParseCryptoKey(key.name) == Some(k)
    ensures NextVersionName(key) == VersionName(k, Itoa(|key.versions| + 1))
  {
    CryptoKeyRoundTrip(key.name, k);
  }

  /** createVersion never meets the errors it ignores, and never overwrites a version. */
  lemma CreateVersionIsSafe(k: CryptoKeyName, key: CryptoKey)
    requires KeyOk(k, key)
    ensures ParseCryptoKey(key.name) == Some(k) && NewVersion(key).Some?
    ensures NextVersionName(key) == VersionName(k, Itoa(|key.versions| + 1)) && NextVersionName(key) !in key.versions
    ensures KeyOk(k, key.(versions := key.versions[NextVersionName(key) := NewVersion(key).value]))
  {
    NextName(k, key);
    ExtendNumbered(k, key.versions, NextVersionName(key), NewVersion(key).value);
    assert VersionOk(NextVersionName(key), NewVersion(key).value, key.purpose);
  }

  lemma ExtendNumbered(k: CryptoKeyName, versions: map<VersionName, Version>, v: VersionName, version: Version)
    requires versions.Keys == Numbered(k, |versions|) && v == VersionName(k, Itoa(|versions| + 1))
    ensures v !in versions && |versions[v := version]| == |versions| + 1
    ensures versions[v := version].Keys == Numbered(k, |versions| + 1)
  {
    NextIsNew(k, |versions|);
    assert versions[v := version].Keys == versions.Keys + {v};
  }

  lemma AddVersionPending(t: Tree, k: CryptoKeyName, key: CryptoKey, v: VersionName, version: Version)
    requires PendingOk(t) && k.keyRing in t.rings
    requires if HasKey(t, k) then KeyAt(t, k) == key else key.versions == map[]
    requires v !in key.versions && v.cryptoKey == k
    ensures var t' := PutKey(t, k, key.(versions := key.versions[v := version]));
            PendingOk(if version.hasMaterial then t' else t'.(pending := t.pending + {v}))
  {
  }

  lemma AddVersionOk(t: Tree, k: CryptoKeyName, key: CryptoKey)
    requires TreeOk(t) && k.keyRing in t.rings && KeyOk(k, key)
    requires if HasKey(t, k) then KeyAt(t, k) == key else key.versions == map[]
    ensures AddVersion(t, k, key).1 == OK && TreeOk(AddVersion(t, k, key).0)
  {
    CreateVersionIsSafe(k, key);
    var v, version := NextVersionName(key), NewVersion(key).value;
    PutKeyOk(t, k, key.(versions := key.versions[v := version]));
    AddVersionPending(t, k, key, v, version);
  }

  lemma {:induction false} PatchKeyOk(k: CryptoKeyName, key: CryptoKey, template: Option<Algorithm>, paths: seq<string>)
    requires KeyOk(k, key)
    ensures var key' := PatchKey(key, template, paths).0;
            KeyOk(k, key') && key'.versions == key.versions && key'.purpose == key.purpose
    decreases |paths|
  {
    if paths != [] && paths[0] == "version_template.algorithm" && template.Some?
       && ValidateAlgorithm(template.value, key.purpose) == OK
    {
      PatchKeyOk(k, key.(algorithm := template.value), template, paths[1..]);
    }
  }

  /** Updating a version touches its state only, and only to the requested one. */
  lemma {:induction false} PatchVersionState(version: Version, state: VersionState, paths: seq<string>)
    ensures PatchVersion(version, state, paths).0
         == if paths != [] && paths[0] == "state" && (state.Enabled? || state.Disabled?)
            then version.(state := state) else version
    decreases |paths|
  {
    if paths != [] && paths[0] == "state" && (state.Enabled? || state.Disabled?) {
      PatchVersionState(version.(state := state), state, paths[1..]);
    }
  }

  lemma PutVersionOk(t: Tree, v: VersionName, version: Version)
    requires RingsOk(t) && HasVersion(t, v)
    requires version.name == VersionAt(t, v).name && version.algorithm == VersionAt(t, v).algorithm
    ensures RingsOk(PutVersion(t, v, version))
  {
    var key := KeyAt(t, v.cryptoKey);
    assert KeyOk(v.cryptoKey, key);
    ReplaceVersionOk(v.cryptoKey, key, v, version);
    PutKeyOk(t, v.cryptoKey, key.(versions := key.versions[v := version]));
  }

  lemma ReplaceVersionOk(k: CryptoKeyName, key: CryptoKey, v: VersionName, version: Version)
    requires KeyOk(k, key) && v in key.versions && VersionOk(v, version, key.purpose)
    ensures KeyOk(k, key.(versions := key.versions[v := version]))
  {
  }

  // ---------------------------------------------------------------------------------------
  // What every RPC keeps
  // ---------------------------------------------------------------------------------------

  lemma PutKeyPending(t: Tree, k: CryptoKeyName, key: CryptoKey)
    requires PendingOk(t) && k.keyRing in t.rings
    requires if HasKey(t, k) then key.versions == KeyAt(t, k).versions else key.versions == map[]
    ensures PendingOk(PutKey(t, k, key))
  {
  }

  lemma PutStatePending(t: Tree, v: VersionName, state: VersionState)
    requires PendingOk(t) && HasVersion(t, v)
    ensures PendingOk(PutVersion(t, v, VersionAt(t, v).(state := state)))
  {
  }

  lemma PutStateOk(t: Tree, v: VersionName, state: VersionState)
    requires TreeOk(t) && HasVersion(t, v)
    ensures TreeOk(PutVersion(t, v, VersionAt(t, v).(state := state)))
  {
    PutVersionOk(t, v, VersionAt(t, v).(state := state));
    PutStatePending(t, v, state);
  }

  lemma NewRing(t: Tree, r: KeyRingName)
    requires r !in t.rings && PendingOk(t)
    ensures var t' := t.(rings := t.rings[r := KeyRing(r.Print(), map[])]);
            PendingOk(t')
  {
  }

  lemma CreateKeyRingOk(t: Tree, parent: Option<LocationName>, id: string)
    requires TreeOk(t) && (parent.Some? ==> parent.value.WellFormed())
    ensures var (t', code) := DoCreateKeyRing(t, parent, id); TreeOk(t') && code != Panic
  {
    if parent.Some? && DoCreateKeyRing(t, parent, id).1 == OK {
      NewRing(t, KeyRingName(parent.value, id));
    }
  }

  lemma CreateCryptoKeyOk(t: Tree, parent: Option<KeyRingName>, id: string, template: CryptoKey, skip: bool)
    requires TreeOk(t) && template.versions == map[] && (parent.Some? ==> parent.value.WellFormed())
    ensures var (t', code) := DoCreateCryptoKey(t, parent, id, template, skip); TreeOk(t') && code != Panic
  {
    if CheckNewKey(t, parent, id, template) == OK {
      var k := CryptoKeyName(parent.value, id);
      NewKeyOk(t, k, template.(name := k.Print()), skip);
    }
  }

  lemma NewKeyOk(t: Tree, k: CryptoKeyName, key: CryptoKey, skip: bool)
    requires TreeOk(t) && k.keyRing in t.rings && !HasKey(t, k) && key.versions == map[]
    requires k.WellFormed() && key.name == k.Print() && PurposeOf(key.algorithm) == Some(key.purpose)
    ensures var (t', code) := InsertKey(t, k, key, skip); TreeOk(t') && code == OK
  {
    assert KeyOk(k, key);
    if skip {
      PutKeyOk(t, k, key);
      PutKeyPending(t, k, key);
    } else {
      AddVersionOk(t, k, key);
    }
  }

  /** The mask starts with the template's algorithm and there is no template. */
  predicate PatchPanics(template: Option<Algorithm>, paths: seq<string>) {
    paths != [] && paths[0] == "version_template.algorithm" && template.None?
  }

  /** The request makes its handler panic: an update that selects something, but without a key, or
      of an existing key without the template it starts with. */
  predicate Panics(t: Tree, rpc: Rpc) {
    && rpc.UpdateCryptoKey? && rpc.paths != []
    && (|| rpc.patch.None?
        || (&& ParseCryptoKey(rpc.patch.value.name).Some? && HasKey(t, ParseCryptoKey(rpc.patch.value.name).value)
            && PatchPanics(rpc.patch.value.template, rpc.paths)))
  }

  /** The invariant holds whatever RPC is served; and it is known which requests make a handler
      panic, none of them in createVersion. */
  lemma HandleKeepsTree(t: Tree, rpc: Rpc)
    requires TreeOk(t)
    ensures var (t', code) := Handle(t, rpc);
            && TreeOk(t')
            && (code == Panic <==> Panics(t, rpc))
  {
    match rpc
    case CreateKeyRing(parent, id) =>
      ParsedWellFormed(parent);
      CreateKeyRingOk(t, ParseLocation(parent), id);
    case CreateCryptoKey(parent, id, purpose, algorithm, protection, skip) =>
      ParsedWellFormed(parent);
      CreateCryptoKeyOk(t, ParseKeyRing(parent), id, KeyTemplate(purpose, algorithm, protection), skip);
    case CreateCryptoKeyVersion(parent) => CreateVersionOk(t, ParseCryptoKey(parent));
    case UpdateCryptoKey(patch, paths) =>
      if patch.Some? && paths != [] {
        UpdateKeyOk(t, ParseCryptoKey(patch.value.name), patch.value.template, paths);
      }
    case UpdateCryptoKeyVersion(name, state, paths) => UpdateVersionOk(t, ParseVersion(name), state, paths);
    case DestroyCryptoKeyVersion(name) => DestroyOk(t, ParseVersion(name));
    case ReadOnly =>
  }

  lemma ParsedWellFormed(s: string)
    ensures ParseLocation(s).Some? ==> ParseLocation(s).value.WellFormed()
    ensures ParseKeyRing(s).Some? ==> ParseKeyRing(s).value.WellFormed()
  {
    if ParseLocation(s).Some? {
      LocationRoundTrip(s, ParseLocation(s).value);
    }
    if ParseKeyRing(s).Some? {
      KeyRingRoundTrip(s, ParseKeyRing(s).value);
    }
  }

  lemma CreateVersionOk(t: Tree, parent: Option<CryptoKeyName>)
    requires TreeOk(t)
    ensures var (t', code) := DoCreateVersion(t, parent); TreeOk(t') && code != Panic
  {
    if parent.Some? && HasKey(t, parent.value) {
      AddVersionOk(t, parent.value, KeyAt(t, parent.value));
    }
  }

  lemma UpdateVersionOk(t: Tree, name: Option<VersionName>, state: VersionState, paths: seq<string>)
    requires TreeOk(t)
    ensures var (t', code) := DoUpdateVersion(t, name, state, paths); TreeOk(t') && code != Panic
  {
    if name.Some? && HasVersion(t, name.value) {
      var version := VersionAt(t, name.value);
      PatchVersionState(version, state, paths);
      PatchVersionCode(version, state, paths);
      PutStateOk(t, name.value, PatchVersion(version, state, paths).0.state);
    }
  }

  lemma DestroyOk(t: Tree, name: Option<VersionName>)
    requires TreeOk(t)
    ensures var (t', code) := DoDestroy(t, name); TreeOk(t') && code != Panic
  {
    if DoDestroy(t, name).1 == OK {
      PutStateOk(t, name.value, DestroyScheduled);
    }
  }

  lemma {:induction false} PatchVersionCode(version: Version, state: VersionState, paths: seq<string>)
    ensures PatchVersion(version, state, paths).1 in {OK, InvalidArgument}
    decreases |paths|
  {
    if paths != [] && paths[0] == "state" && (state.Enabled? || state.Disabled?) {
      PatchVersionCode(version.(state := state), state, paths[1..]);
    }
  }

  lemma {:induction false} PatchKeyCode(key: CryptoKey, template: Option<Algorithm>, paths: seq<string>)
    ensures PatchKey(key, template, paths).1 == Panic <==> PatchPanics(template, paths)
    decreases |paths|
  {
    if paths != [] && paths[0] == "version_template.algorithm" && template.Some?
       && ValidateAlgorithm(template.value, key.purpose) == OK
    {
      PatchKeyCode(key.(algorithm := template.value), template, paths[1..]);
    }
  }

  lemma UpdateKeyOk(t: Tree, name: Option<CryptoKeyName>, template: Option<Algorithm>, paths: seq<string>)
    requires TreeOk(t)
    ensures var (t', code) := DoUpdateKey(t, name, template, paths);
            TreeOk(t') && (code == Panic <==> name.Some? && HasKey(t, name.value) && PatchPanics(template, paths))
  {
    if name.Some? && HasKey(t, name.value) {
      var k, key := name.value, KeyAt(t, name.value);
      PatchKeyOk(k, key, template, paths);
      PatchKeyCode(key, template, paths);
      var key' := PatchKey(key, template, paths).0;
      PutKeyOk(t, k, key');
      PutKeyPending(t, k, key');
    }
  }

  lemma FinishLookups(t: Tree, v: VersionName, u: VersionName)
    requires HasVersion(t, v)
    ensures var t' := FinishGeneration(t, v);
            && (HasVersion(t', u) <==> HasVersion(t, u))
            && (HasVersion(t, u) ==> VersionAt(t', u) == if u == v then VersionAt(t, v).(hasMaterial := true, state := Enabled)
                                                         else VersionAt(t, u))
  {
  }

  lemma FinishPending(t: Tree, v: VersionName)
    requires PendingOk(t) && HasVersion(t, v)
    ensures PendingOk(FinishGeneration(t, v))
  {
  }

  /** Finishing a pending generation keeps the invariant. */
  lemma GenerationKeepsTree(t: Tree, v: VersionName)
    requires TreeOk(t) && v in t.pending
    ensures HasVersion(t, v) && TreeOk(FinishGeneration(t, v))
  {
    PutVersionOk(t, v, VersionAt(t, v).(hasMaterial := true, state := Enabled));
    FinishPending(t, v);
  }

  // ---------------------------------------------------------------------------------------
  // What an RPC does to one version
  // ---------------------------------------------------------------------------------------

  /** The update mask gets as far as setting the state. */
  predicate SetsState(rpc: Rpc) {
    && rpc.UpdateCryptoKeyVersion? && (rpc.state.Enabled? || rpc.state.Disabled?)
    && rpc.paths != [] && rpc.paths[0] == "state"
  }

  predicate Targets(rpc: Rpc, u: VersionName) {
    (rpc.UpdateCryptoKeyVersion? || rpc.DestroyCryptoKeyVersion?) && ParseVersion(rpc.name) == Some(u)
  }

  function StateAfter(rpc: Rpc, u: VersionName, state: VersionState): VersionState {
    if !Targets(rpc, u) then state
    else if SetsState(rpc) then rpc.state
    else if rpc.DestroyCryptoKeyVersion? && (state.Enabled? || state.Disabled?) then DestroyScheduled
    else state
  }

  /** `t'` differs from `t` at version `u` as `rpc` wants it to: an existing version at most has its
      state changed, a new one is either enabled with material or pending without. */
  ghost predicate Effect(t: Tree, rpc: Rpc, u: VersionName, t': Tree) {
    && (HasVersion(t, u) ==>
          && HasVersion(t', u)
          && VersionAt(t', u) == VersionAt(t, u).(state := StateAfter(rpc, u, VersionAt(t, u).state)))
    && (!HasVersion(t, u) && HasVersion(t', u) ==> Fresh(VersionAt(t', u)))
  }

  /** As Effect, where the state is left alone too. */
  ghost predicate Undisturbed(t: Tree, u: VersionName, t': Tree) {
    && (HasVersion(t, u) ==> HasVersion(t', u) && VersionAt(t', u) == VersionAt(t, u))
    && (!HasVersion(t, u) && HasVersion(t', u) ==> Fresh(VersionAt(t', u)))
  }

  predicate Fresh(version: Version) {
    if version.hasMaterial then version.state.Enabled? else version.state.PendingGeneration?
  }

  lemma AddVersionEffect(t: Tree, k: CryptoKeyName, key: CryptoKey, u: VersionName)
    requires k.keyRing in t.rings && KeyOk(k, key)
    requires if HasKey(t, k) then KeyAt(t, k) == key else key.versions == map[]
    ensures var t' := AddVersion(t, k, key).0;
            Undisturbed(t, u, t')
  {
    CreateVersionIsSafe(k, key);
    var version := NewVersion(key).value;
    assert Fresh(version);
    var t' := AddVersion(t, k, key).0;
    var key' := key.(versions := key.versions[NextVersionName(key) := version]);
    PutKeyVersions(t, k, key', u);
    assert HasVersion(t', u) <==> HasVersion(PutKey(t, k, key'), u);
  }

  lemma CreateCryptoKeyEffect(t: Tree, parent: Option<KeyRingName>, id: string, template: CryptoKey, skip: bool, u: VersionName)
    requires TreeOk(t) && template.versions == map[] && (parent.Some? ==> parent.value.WellFormed())
    ensures var t' := DoCreateCryptoKey(t, parent, id, template, skip).0;
            Undisturbed(t, u, t')
  {
    if CheckNewKey(t, parent, id, template) == OK {
      var k := CryptoKeyName(parent.value, id);
      var key := template.(name := k.Print());
      if skip {
        PutKeyVersions(t, k, key, u);
      } else {
        assert KeyOk(k, key);
        AddVersionEffect(t, k, key, u);
      }
    }
  }

  lemma UpdateKeyEffect(t: Tree, name: Option<CryptoKeyName>, template: Option<Algorithm>, paths: seq<string>, u: VersionName)
    requires TreeOk(t)
    ensures var t' := DoUpdateKey(t, name, template, paths).0;
            Undisturbed(t, u, t')
  {
    if name.Some? && HasKey(t, name.value) {
      PatchKeyOk(name.value, KeyAt(t, name.value), template, paths);
      PutKeyVersions(t, name.value, PatchKey(KeyAt(t, name.value), template, paths).0, u);
    }
  }

  lemma UpdateVersionEffect(t: Tree, rpc: Rpc, u: VersionName)
    requires rpc.UpdateCryptoKeyVersion?
    ensures Effect(t, rpc, u, Handle(t, rpc).0)
  {
    var v := ParseVersion(rpc.name);
    if v.Some? && HasVersion(t, v.value) {
      var version := VersionAt(t, v.value);
      PatchVersionState(version, rpc.state, rpc.paths);
      PutVersionLookups(t, v.value, PatchVersion(version, rpc.state, rpc.paths).0, u);
    }
  }

  lemma DestroyEffect(t: Tree, rpc: Rpc, u: VersionName)
    requires rpc.DestroyCryptoKeyVersion?
    ensures Effect(t, rpc, u, Handle(t, rpc).0)
  {
    var v := ParseVersion(rpc.name);
    if v.Some? && HasVersion(t, v.value) {
      PutVersionLookups(t, v.value, VersionAt(t, v.value).(state := DestroyScheduled), u);
    }
  }

  lemma CreateKeyRingEffect(t: Tree, parent: Option<LocationName>, id: string, u: VersionName)
    ensures Undisturbed(t, u, DoCreateKeyRing(t, parent, id).0)
  {
  }

  lemma CreateVersionEffect(t: Tree, parent: Option<CryptoKeyName>, u: VersionName)
    requires TreeOk(t)
    ensures Undisturbed(t, u, DoCreateVersion(t, parent).0)
  {
    if parent.Some? && HasKey(t, parent.value) {
      AddVersionEffect(t, parent.value, KeyAt(t, parent.value), u);
    }
  }

  lemma OtherEffect(t: Tree, rpc: Rpc, u: VersionName)
    requires TreeOk(t) && !rpc.UpdateCryptoKeyVersion? && !rpc.DestroyCryptoKeyVersion?
    ensures Undisturbed(t, u, Handle(t, rpc).0)
  {
    match rpc
    case CreateKeyRing(parent, id) => CreateKeyRingEffect(t, ParseLocation(parent), id, u);
    case CreateCryptoKey(parent, id, purpose, algorithm, protection, skip) =>
      ParsedWellFormed(parent);
      CreateCryptoKeyEffect(t, ParseKeyRing(parent), id, KeyTemplate(purpose, algorithm, protection), skip, u);
    case CreateCryptoKeyVersion(parent) => CreateVersionEffect(t, ParseCryptoKey(parent), u);
    case UpdateCryptoKey(patch, paths) =>
      if patch.Some? && paths != [] {
        UpdateKeyEffect(t, ParseCryptoKey(patch.value.name), patch.value.template, paths, u);
      }
    case ReadOnly =>
  }

  /** No RPC removes, renames or overwrites a version. */
  lemma HandleEffect(t: Tree, rpc: Rpc, u: VersionName)
    requires TreeOk(t)
    ensures Effect(t, rpc, u, Handle(t, rpc).0)
  {
    if rpc.UpdateCryptoKeyVersion? {
      UpdateVersionEffect(t, rpc, u);
    } else if rpc.DestroyCryptoKeyVersion? {
      DestroyEffect(t, rpc, u);
    } else {
      OtherEffect(t, rpc, u);
    }
  }

  // ---------------------------------------------------------------------------------------
  // Enabled versions have key material
  // ---------------------------------------------------------------------------------------

  ghost predicate EnabledOk(t: Tree) {
    forall v :: HasVersion(t, v) && VersionAt(t, v).state.Enabled? ==> VersionAt(t, v).hasMaterial
  }

  /** The request sets the state of a version that is still being generated. */
  predicate TouchesPending(t: Tree, rpc: Rpc) {
    SetsState(rpc) && exists v | v in t.pending :: Targets(rpc, v)
  }

  lemma EnabledFromEffect(t: Tree, rpc: Rpc, t': Tree)
    requires PendingOk(t) && EnabledOk(t) && forall u :: Effect(t, rpc, u, t')
    ensures EnabledOk(t') <==> !(TouchesPending(t, rpc) && rpc.state.Enabled?)
  {
    if TouchesPending(t, rpc) && rpc.state.Enabled? {
      var v :| v in t.pending && Targets(rpc, v);
      assert Effect(t, rpc, v, t');
    } else {
      forall v | HasVersion(t', v) && VersionAt(t', v).state.Enabled? ensures VersionAt(t', v).hasMaterial {
        assert Effect(t, rpc, v, t');
      }
    }
  }

  /** An RPC keeps "every ENABLED version has key material" exactly unless it enables a version
      that is still being generated. */
  lemma EnabledKeptExactly(t: Tree, rpc: Rpc)
    requires TreeOk(t) && EnabledOk(t)
    ensures EnabledOk(Handle(t, rpc).0) <==> !(TouchesPending(t, rpc) && rpc.state.Enabled?)
  {
    var t' := Handle(t, rpc).0;
    forall u ensures Effect(t, rpc, u, t') {
      HandleEffect(t, rpc, u);
    }
    EnabledFromEffect(t, rpc, t');
  }

  /** A version is in state PENDING_GENERATION exactly while its goroutine is at work. */
  ghost predicate PendingStates(t: Tree) {
    forall v :: HasVersion(t, v) ==> (VersionAt(t, v).state.PendingGeneration? <==> v in t.pending)
  }

  lemma PendingFromEffect(t: Tree, rpc: Rpc, t': Tree)
    requires PendingOk(t) && PendingOk(t') && forall u :: Effect(t, rpc, u, t')
    requires PendingStates(t)
    ensures PendingStates(t') <==> !TouchesPending(t, rpc)
  {
    if TouchesPending(t, rpc) {
      var v :| v in t.pending && Targets(rpc, v);
      assert Effect(t, rpc, v, t');
      assert HasVersion(t', v) && v in t'.pending;
    } else {
      forall v | HasVersion(t', v) ensures VersionAt(t', v).state.PendingGeneration? <==> v in t'.pending {
        assert Effect(t, rpc, v, t');
      }
    }
  }

  /** An RPC keeps that exactly unless it sets the state of a version being generated. */
  lemma PendingStatesKept(t: Tree, rpc: Rpc)
    requires TreeOk(t) && PendingStates(t)
    ensures PendingStates(Handle(t, rpc).0) <==> !TouchesPending(t, rpc)
  {
    HandleKeepsTree(t, rpc);
    var t' := Handle(t, rpc).0;
    forall u ensures Effect(t, rpc, u, t') {
      HandleEffect(t, rpc, u);
    }
    PendingFromEffect(t, rpc, t');
  }

  lemma GenerationKeepsStates(t: Tree, v: VersionName)
    requires TreeOk(t) && v in t.pending
    ensures EnabledOk(t) ==> EnabledOk(FinishGeneration(t, v))
    ensures PendingStates(t) ==> PendingStates(FinishGeneration(t, v))
  {
    var t' := FinishGeneration(t, v);
    forall u | HasVersion(t', u)
      ensures EnabledOk(t) && VersionAt(t', u).state.Enabled? ==> VersionAt(t', u).hasMaterial
      ensures PendingStates(t) ==> (VersionAt(t', u).state.PendingGeneration? <==> u in t'.pending)
    {
      FinishLookups(t, v, u);
    }
  }

  // ---------------------------------------------------------------------------------------
  // Names in the tree
  // ---------------------------------------------------------------------------------------

  /** CreateCryptoKeyVersion on an existing key succeeds and adds version n + 1 to versions 1 .. n. */
  lemma CreateAddsNext(t: Tree, parent: string, k: CryptoKeyName)
    requires TreeOk(t) && ParseCryptoKey(parent) == Some(k) && HasKey(t, k)
    ensures var (t', code) := Handle(t, CreateCryptoKeyVersion(parent));
            var n := |KeyAt(t, k).versions|;
            var v := VersionName(k, Itoa(n + 1));
            && code == OK && !HasVersion(t, v) && HasVersion(t', v)
            && KeyAt(t', k).versions.Keys == Numbered(k, n + 1)
  {
    assert KeyOk(k, KeyAt(t, k));
    AddsNext(t, k, KeyAt(t, k));
  }

  lemma AddsNext(t: Tree, k: CryptoKeyName, key: CryptoKey)
    requires HasKey(t, k) && KeyAt(t, k) == key && KeyOk(k, key)
    ensures var (t', code) := AddVersion(t, k, key);
            var v := VersionName(k, Itoa(|key.versions| + 1));
            && code == OK && !HasVersion(t, v) && HasVersion(t', v)
            && KeyAt(t', k).versions.Keys == Numbered(k, |key.versions| + 1)
  {
    CreateVersionIsSafe(k, key);
    ExtendNumbered(k, key.versions, NextVersionName(key), NewVersion(key).value);
    PutKeyLookups(t, k, key.(versions := key.versions[NextVersionName(key) := NewVersion(key).value]));
  }

  lemma StoredVersion(t: Tree, v: VersionName)
    requires TreeOk(t) && HasVersion(t, v)
    ensures v.cryptoKey.WellFormed() && VersionAt(t, v).name == v.Print()
    ensures exists i :: 1 <= i <= |KeyAt(t, v.cryptoKey).versions| && v.id == Itoa(i)
  {
    var key := KeyAt(t, v.cryptoKey);
    assert KeyOk(v.cryptoKey, key);
    assert v in Numbered(v.cryptoKey, |key.versions|);
    var i :| 1 <= i <= |key.versions| && v == VersionName(v.cryptoKey, Itoa(i));
  }

  /** Every stored version is found again under the name it is listed with, as long as the
      version number has at most 63 digits. */
  lemma StoredNamesResolve(t: Tree, v: VersionName)
    requires TreeOk(t) && HasVersion(t, v) && |KeyAt(t, v.cryptoKey).versions| < Power10(63)
    ensures ParseVersion(VersionAt(t, v).name) == Some(v)
  {
    StoredVersion(t, v);
    var i :| 1 <= i <= |KeyAt(t, v.cryptoKey).versions| && v.id == Itoa(i);
    ItoaLength(i, 63, Power10(63));
    VersionRoundTrip(v.Print(), v);
  }

  /** No two versions are listed under the same name, in the same key or in different ones. */
  lemma ListedNamesDistinct(t: Tree, u: VersionName, v: VersionName)
    requires TreeOk(t) && HasVersion(t, u) && HasVersion(t, v)
    requires VersionAt(t, u).name == VersionAt(t, v).name
    ensures u == v
  {
    StoredVersion(t, u);
    StoredVersion(t, v);
    SamePrint(u, v);
  }

  lemma SamePrint(u: VersionName, v: VersionName)
    requires u.cryptoKey.WellFormed() && v.cryptoKey.WellFormed() && NoSlash(u.id) && NoSlash(v.id)
    requires u.Print() == v.Print()
    ensures u == v
  {
    TailParts(u.cryptoKey.Print(), "cryptoKeyVersions", u.id);
    TailParts(v.cryptoKey.Print(), "cryptoKeyVersions", v.id);
    var parts := Split(u.Print());
    assert parts[|parts| - 1] == u.id == v.id;
    CryptoKeyRoundTrip(u.cryptoKey.Print(), u.cryptoKey);
    CryptoKeyRoundTrip(v.cryptoKey.Print(), v.cryptoKey);
  }

  /** A ring under a location with a newline is created, but no request can name it. */
  lemma NewlineRing(t: Tree, location: LocationName, id: string)
    requires location.WellFormed() && !NoNewline(location.Print()) && ValidId(id)
    ensures var ring := KeyRingName(location, id);
            && Handle(t, CreateKeyRing(location.Print(), id)).1 == (if ring in t.rings then AlreadyExists else OK)
            && ring in Handle(t, CreateKeyRing(location.Print(), id)).0.rings
            && ParseKeyRing(ring.Print()) == None
  {
    LocationRoundTrip(location.Print(), location);
    TailParts(location.Print(), "keyRings", id);
  }

  /** There is such a location. */
  lemma NewlineLocation()
    ensures var location := LocationName("a\n", "b"); location.WellFormed() && !NoNewline(location.Print())
  {
    var s := LocationName("a\n", "b").Print();
    assert s[10] == '\n';
  }
}
