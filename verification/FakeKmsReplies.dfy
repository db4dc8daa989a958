/** What the six RPCs of fakekms that change the tree answer, and what they change, request by
    request (fakekms/key_ring_rpcs.go, crypto_key_rpcs.go and crypto_key_version_rpcs.go). */
module FakeKmsReplies {
  import opened Basics
  import opened ResourceNames
  import opened FakeKms

  /** All keys but k are as before. */
  ghost predicate OnlyKey(t: Tree, k: CryptoKeyName, t': Tree) {
    forall j :: j != k ==> (HasKey(t', j) <==> HasKey(t, j)) && (HasKey(t, j) ==> KeyAt(t', j) == KeyAt(t, j))
  }

  lemma CreateKeyRingReply(t: Tree, parent: string, id: string)
    ensures var (t', code) := FakeKms.Handle(t, CreateKeyRing(parent, id));
            var location := ParseLocation(parent);
            if location.None? || !ValidId(id) then code == InvalidArgument && t' == t
            else
              var r := KeyRingName(location.value, id);
              if r in t.rings then code == AlreadyExists && t' == t
              else code == OK && t' == t.(rings := t.rings[r := KeyRing(r.Print(), map[])])
  {
  }

  /** The purposes of the supported algorithms. */
  lemma AlgorithmPurposes(a: Algorithm)
    ensures PurposeOf(a) == None <==> a.AlgorithmUnspecified? || a.OtherAlgorithm?
    ensures PurposeOf(a) == Some(EncryptDecrypt) <==> a == GoogleSymmetricEncryption
    ensures PurposeOf(a) == Some(RawEncryptDecrypt) <==> a in {Aes128Gcm, Aes256Gcm, Aes128Ctr, Aes256Ctr, Aes128Cbc, Aes256Cbc}
    ensures PurposeOf(a) == Some(Mac) <==> a in {HmacSha1, HmacSha224, HmacSha256, HmacSha384, HmacSha512}
    ensures PurposeOf(a) == Some(AsymmetricDecrypt) <==>
            a in {RsaDecryptOaep2048Sha256, RsaDecryptOaep3072Sha256, RsaDecryptOaep4096Sha256, RsaDecryptOaep4096Sha512}
    ensures PurposeOf(a) != Some(PurposeUnspecified)
  {
  }

  // ---------------------------------------------------------------------------------------
  // Creating keys and versions
  // ---------------------------------------------------------------------------------------

  /** A version as it is created: asymmetric ones still wait for their key material. */
  function Created(v: VersionName, algorithm: Algorithm, protection: ProtectionLevel, purpose: Purpose): Version {
    var asymmetric := purpose == AsymmetricSign || purpose == AsymmetricDecrypt;
    Version(v.Print(), if asymmetric then PendingGeneration else Enabled, algorithm, protection, !asymmetric)
  }

  lemma CreateVersionReply(t: Tree, parent: string)
    requires TreeOk(t)
    ensures var (t', code) := FakeKms.Handle(t, CreateCryptoKeyVersion(parent));
            var k := ParseCryptoKey(parent);
            if k.None? then code == InvalidArgument && t' == t
            else if !HasKey(t, k.value) then code == NotFound && t' == t
            else
              var key := KeyAt(t, k.value);
              var v := VersionName(k.value, Itoa(|key.versions| + 1));
              var version := Created(v, key.algorithm, key.protection, key.purpose);
              && code == OK && HasKey(t', k.value) && KeyAt(t', k.value) == key.(versions := key.versions[v := version])
              && OnlyKey(t, k.value, t') && t'.pending == t.pending + (if version.hasMaterial then {} else {v})
  {
    var k := ParseCryptoKey(parent);
    if k.Some? && HasKey(t, k.value) {
      assert KeyOk(k.value, KeyAt(t, k.value));
      AddVersionReply(t, k.value, KeyAt(t, k.value));
    }
  }

  lemma AddVersionReply(t: Tree, k: CryptoKeyName, key: CryptoKey)
    requires k.keyRing in t.rings && KeyOk(k, key)
    ensures var (t', code) := AddVersion(t, k, key);
            var v := VersionName(k, Itoa(|key.versions| + 1));
            var version := Created(v, key.algorithm, key.protection, key.purpose);
            && code == OK && HasKey(t', k) && KeyAt(t', k) == key.(versions := key.versions[v := version])
            && OnlyKey(t, k, t') && t'.pending == t.pending + (if version.hasMaterial then {} else {v})
  {
    CreateVersionIsSafe(k, key);
    var v := NextVersionName(key);
    PutKeyLookups(t, k, key.(versions := key.versions[v := NewVersion(key).value]));
  }

  /** The algorithm and the protection level that a request for a key stands for. */
  function EffectiveAlgorithm(algorithm: Algorithm): Algorithm {
    if algorithm == AlgorithmUnspecified then GoogleSymmetricEncryption else algorithm
  }

  function EffectiveProtection(protection: ProtectionLevel): ProtectionLevel {
    if protection == ProtectionUnspecified then Software else protection
  }

  /** The request is in order, whatever the tree. */
  predicate GoodKeyRequest(parent: string, id: string, purpose: Purpose, algorithm: Algorithm, protection: ProtectionLevel) {
    && ParseKeyRing(parent).Some? && ValidId(id) && purpose != PurposeUnspecified
    && PurposeOf(EffectiveAlgorithm(algorithm)) == Some(purpose)
    && EffectiveProtection(protection) in {Software, Hsm}
  }

  lemma CreateCryptoKeyRefused(
    t: Tree, parent: string, id: string, purpose: Purpose, algorithm: Algorithm, protection: ProtectionLevel, skip: bool)
    requires !GoodKeyRequest(parent, id, purpose, algorithm, protection)
    ensures var (t', code) := FakeKms.Handle(t, CreateCryptoKey(parent, id, purpose, algorithm, protection, skip));
            && t' == t
            && code == if ParseKeyRing(parent).None? || !ValidId(id) || purpose == PurposeUnspecified then InvalidArgument
                       else match PurposeOf(EffectiveAlgorithm(algorithm))
                         case None => Unimplemented
                         case Some(p) => if p != purpose then InvalidArgument else Unimplemented
  {
  }

  /** The key is stored, with one version unless that is to be skipped. */
  ghost predicate StoredNew(t: Tree, k: CryptoKeyName, key: CryptoKey, skip: bool, t': Tree) {
    var v := VersionName(k, Itoa(1));
    var version := Created(v, key.algorithm, key.protection, key.purpose);
    && HasKey(t', k) && OnlyKey(t, k, t')
    && KeyAt(t', k) == (if skip then key else key.(versions := map[v := version]))
    && t'.pending == t.pending + (if skip || version.hasMaterial then {} else {v})
  }

  lemma InsertKeyReply(t: Tree, k: CryptoKeyName, key: CryptoKey, skip: bool, n: nat)
    requires k.keyRing in t.rings && KeyOk(k, key) && key.versions == map[] && n == 1
    ensures var (t', code) := InsertKey(t, k, key, skip); code == OK && StoredNew(t, k, key, skip, t')
  {
    if skip {
      PutKeyLookups(t, k, key);
    } else {
      AddVersionReply(t, k, key);
      assert |key.versions| + 1 == n;
      var v := VersionName(k, Itoa(n));
      var version := Created(v, key.algorithm, key.protection, key.purpose);
      assert key.versions[v := version] == map[v := version];
    }
  }

  lemma EmptyKeyOk(k: CryptoKeyName, key: CryptoKey)
    requires k.WellFormed() && key.name == k.Print() && PurposeOf(key.algorithm) == Some(key.purpose) && key.versions == map[]
    ensures KeyOk(k, key)
  {
  }

  /** The key that a request stands for. */
  function RequestedKey(
    k: CryptoKeyName, purpose: Purpose, algorithm: Algorithm, protection: ProtectionLevel): CryptoKey
  {
    CryptoKey(k.Print(), purpose, EffectiveAlgorithm(algorithm), EffectiveProtection(protection), map[])
  }

  lemma CreateIsInsert(
    t: Tree, parent: string, id: string, purpose: Purpose, algorithm: Algorithm, protection: ProtectionLevel, skip: bool,
    k: CryptoKeyName)
    requires GoodKeyRequest(parent, id, purpose, algorithm, protection) && k == CryptoKeyName(ParseKeyRing(parent).value, id)
    ensures FakeKms.Handle(t, CreateCryptoKey(parent, id, purpose, algorithm, protection, skip)) ==
            if k.keyRing !in t.rings then (t, NotFound)
            else if HasKey(t, k) then (t, AlreadyExists)
            else InsertKey(t, k, RequestedKey(k, purpose, algorithm, protection), skip)
  {
  }

  lemma CreateCryptoKeyReply(
    t: Tree, parent: string, id: string, purpose: Purpose, algorithm: Algorithm, protection: ProtectionLevel, skip: bool,
    k: CryptoKeyName)
    requires GoodKeyRequest(parent, id, purpose, algorithm, protection) && k == CryptoKeyName(ParseKeyRing(parent).value, id)
    ensures var (t', code) := FakeKms.Handle(t, CreateCryptoKey(parent, id, purpose, algorithm, protection, skip));
            if k.keyRing !in t.rings then code == NotFound && t' == t
            else if HasKey(t, k) then code == AlreadyExists && t' == t
            else code == OK && StoredNew(t, k, RequestedKey(k, purpose, algorithm, protection), skip, t')
  {
    CreateIsInsert(t, parent, id, purpose, algorithm, protection, skip, k);
    if k.keyRing in t.rings && !HasKey(t, k) {
      ParsedWellFormed(parent);
      var key := RequestedKey(k, purpose, algorithm, protection);
      EmptyKeyOk(k, key);
      InsertKeyReply(t, k, key, skip, 1);
    }
  }

  // ---------------------------------------------------------------------------------------
  // Updating
  // ---------------------------------------------------------------------------------------

  const ALGORITHM_PATH := "version_template.algorithm"

  predicate Only(paths: seq<string>, path: string) { forall i | 0 <= i < |paths| :: paths[i] == path }

  lemma {:induction false} PatchKeyReply(key: CryptoKey, algorithm: Algorithm, paths: seq<string>)
    requires PurposeOf(algorithm) == Some(key.purpose) && paths != [] && paths[0] == ALGORITHM_PATH
    ensures PatchKey(key, Some(algorithm), paths)
         == (key.(algorithm := algorithm), if Only(paths, ALGORITHM_PATH) then OK else InvalidArgument)
    decreases |paths|
  {
    var rest := paths[1..];
    if rest != [] && rest[0] == ALGORITHM_PATH {
      PatchKeyReply(key.(algorithm := algorithm), algorithm, rest);
    }
    assert Only(paths, ALGORITHM_PATH) <==> Only(rest, ALGORITHM_PATH) by {
      assert paths == [paths[0]] + rest;
    }
  }

  /** UpdateCryptoKey of an existing key stores the algorithm exactly if the mask starts with it and it
      has the key's purpose, also when a later path is refused; it changes nothing else. */
  lemma UpdateKeyReply(t: Tree, patch: KeyPatch, paths: seq<string>, k: CryptoKeyName)
    requires paths != [] && ParseCryptoKey(patch.name) == Some(k) && HasKey(t, k)
    ensures var (t', code) := FakeKms.Handle(t, UpdateCryptoKey(Some(patch), paths));
            var key := KeyAt(t, k);
            && HasKey(t', k) && OnlyKey(t, k, t') && t'.pending == t.pending
            && if paths[0] != ALGORITHM_PATH then code == InvalidArgument && KeyAt(t', k) == key
               else match patch.template
                 case None => code == Panic && KeyAt(t', k) == key
                 case Some(algorithm) =>
                   if PurposeOf(algorithm) == Some(key.purpose) then
                     && KeyAt(t', k) == key.(algorithm := algorithm)
                     && code == (if Only(paths, ALGORITHM_PATH) then OK else InvalidArgument)
                   else
                     && KeyAt(t', k) == key
                     && code == (if PurposeOf(algorithm).None? then Unimplemented else InvalidArgument)
  {
    var key := KeyAt(t, k);
    if paths[0] == ALGORITHM_PATH && patch.template.Some? && PurposeOf(patch.template.value) == Some(key.purpose) {
      PatchKeyReply(key, patch.template.value, paths);
    }
    PutKeyLookups(t, k, PatchKey(key, patch.template, paths).0);
  }

  lemma UpdateKeyRefused(t: Tree, patch: Option<KeyPatch>, paths: seq<string>)
    requires paths == [] || patch.None? || ParseCryptoKey(patch.value.name).None? || !HasKey(t, ParseCryptoKey(patch.value.name).value)
    ensures FakeKms.Handle(t, UpdateCryptoKey(patch, paths)) ==
            (t, if paths == [] then InvalidArgument
                else if patch.None? then Panic
                else if ParseCryptoKey(patch.value.name).None? then InvalidArgument else NotFound)
  {
  }

  lemma {:induction false} PatchVersionReply(version: Version, state: VersionState, paths: seq<string>)
    requires state == Enabled || state == Disabled
    ensures PatchVersion(version, state, paths).1 == if Only(paths, "state") then OK else InvalidArgument
    decreases |paths|
  {
    if paths != [] && paths[0] == "state" {
      PatchVersionReply(version.(state := state), state, paths[1..]);
      assert Only(paths, "state") <==> Only(paths[1..], "state") by {
        assert paths == [paths[0]] + paths[1..];
      }
    }
  }

  lemma UpdateVersionReply(t: Tree, name: string, state: VersionState, paths: seq<string>)
    ensures var code := FakeKms.Handle(t, UpdateCryptoKeyVersion(name, state, paths)).1;
            code == if paths == [] || ParseVersion(name).None? then InvalidArgument
                    else if !HasVersion(t, ParseVersion(name).value) then NotFound
                    else if (state == Enabled || state == Disabled) && Only(paths, "state") then OK
                    else InvalidArgument
  {
    if paths != [] && ParseVersion(name).Some? && HasVersion(t, ParseVersion(name).value) && (state == Enabled || state == Disabled) {
      PatchVersionReply(VersionAt(t, ParseVersion(name).value), state, paths);
    }
  }

  lemma DestroyReply(t: Tree, name: string)
    ensures var code := FakeKms.Handle(t, DestroyCryptoKeyVersion(name)).1;
            code == if ParseVersion(name).None? then InvalidArgument
                    else if !HasVersion(t, ParseVersion(name).value) then NotFound
                    else if VersionAt(t, ParseVersion(name).value).state in {Enabled, Disabled} then OK
                    else FailedPrecondition
  {
  }
}
