/** fakekms as a server: the handlers updating the tree in place. */
module FakeKmsServer {
  import opened Basics
  import opened ResourceNames
  import opened FakeKms

  class Server {
    var rings: map<KeyRingName, KeyRing>
    var pending: set<VersionName>

    constructor ()
      ensures Abs() == Tree(map[], {}) && TreeOk(Abs())
    {
      rings, pending := map[], {};
    }

    ghost function Abs(): Tree
      reads this
    {
      Tree(rings, pending)
    }

    predicate Knows(k: CryptoKeyName)
      reads this
    {
      k.keyRing in rings && k in rings[k.keyRing].keys
    }

    method CreateKeyRing(parent: string, id: string) returns (code: Code)
      modifies this
      ensures (Abs(), code) == FakeKms.Handle(old(Abs()), Rpc.CreateKeyRing(parent, id))
    {
      var location := ParseLocation(parent);
      if location.None? || !ValidId(id) {
        return InvalidArgument;
      }
      var r := KeyRingName(location.value, id);
      if r in rings {
        return AlreadyExists;
      }
      rings := rings[r := KeyRing(r.Print(), map[])];
      code := OK;
    }

    method CreateCryptoKey(parent: string, id: string, purpose: Purpose, algorithm: Algorithm,
                           protection: ProtectionLevel, skip: bool) returns (code: Code)
      modifies this
      ensures (Abs(), code) == FakeKms.Handle(old(Abs()), Rpc.CreateCryptoKey(parent, id, purpose, algorithm, protection, skip))
    {
      var r := ParseKeyRing(parent);
      var key := KeyTemplate(purpose, algorithm, protection);
      if r.None? || !ValidId(id) || purpose.PurposeUnspecified? {
        return InvalidArgument;
      }
      code := ValidateAlgorithm(key.algorithm, purpose);
      if code != OK {
        return;
      }
      if !key.protection.Software? && !key.protection.Hsm? {
        return Unimplemented;
      }
      var k := CryptoKeyName(r.value, id);
      if k.keyRing !in rings {
        return NotFound;
      }
      if k in rings[k.keyRing].keys {
        return AlreadyExists;
      }
      key := key.(name := k.Print());
      if !skip {
        key, code := CreateVersion(key);
        if code != OK {
          return;
        }
      }
      Store(k, key);
    }

    /** createVersion: adds a version to `key` and, if it is generated asynchronously, a goroutine. */
    method CreateVersion(key: CryptoKey) returns (key': CryptoKey, code: Code)
      modifies this`pending
      ensures NewVersion(key).None? ==> code == Panic && key' == key && pending == old(pending)
      ensures NewVersion(key).Some? ==>
                var v, version := NextVersionName(key), NewVersion(key).value;
                && code == OK && key' == key.(versions := key.versions[v := version])
                && pending == if version.hasMaterial then old(pending) else old(pending) + {v}
    {
      var purpose := PurposeOf(key.algorithm);
      if purpose.None? {
        return key, Panic;
      }
      var v := NextVersionName(key);
      var version := Version(v.Print(), Enabled, key.algorithm, key.protection, true);
      if Asymmetric(purpose.value) {
        version := version.(state := PendingGeneration, hasMaterial := false);
        pending := pending + {v};
      }
      key', code := key.(versions := key.versions[v := version]), OK;
    }

    method Store(k: CryptoKeyName, key: CryptoKey)
      requires k.keyRing in rings
      modifies this`rings
      ensures rings == PutKey(old(Abs()), k, key).rings
    {
      var ring := rings[k.keyRing];
      rings := rings[k.keyRing := ring.(keys := ring.keys[k := key])];
    }

    method CreateCryptoKeyVersion(parent: string) returns (code: Code)
      modifies this
      ensures (Abs(), code) == FakeKms.Handle(old(Abs()), Rpc.CreateCryptoKeyVersion(parent))
    {
      var k := ParseCryptoKey(parent);
      if k.None? {
        return InvalidArgument;
      }
      if !Knows(k.value) {
        return NotFound;
      }
      var key;
      key, code := CreateVersion(rings[k.value.keyRing].keys[k.value]);
      if code == OK {
        Store(k.value, key);
      }
    }

    method UpdateCryptoKey(patch: Option<KeyPatch>, paths: seq<string>) returns (code: Code)
      modifies this
      ensures (Abs(), code) == FakeKms.Handle(old(Abs()), Rpc.UpdateCryptoKey(patch, paths))
    {
      if paths == [] {
        return InvalidArgument;
      }
      if patch.None? {
        return Panic;
      }
      var k := ParseCryptoKey(patch.value.name);
      if k.None? {
        return InvalidArgument;
      }
      if !Knows(k.value) {
        return NotFound;
      }
      var key;
      key, code := ApplyKeyPaths(rings[k.value.keyRing].keys[k.value], patch.value.template, paths);
      Store(k.value, key);
    }

    /** The loop over the update mask of UpdateCryptoKey. */
    method ApplyKeyPaths(key0: CryptoKey, template: Option<Algorithm>, paths: seq<string>) returns (key: CryptoKey, code: Code)
      ensures (key, code) == PatchKey(key0, template, paths)
    {
      key := key0;
      for i := 0 to |paths|
        invariant PatchKey(key, template, paths[i..]) == PatchKey(key0, template, paths)
      {
        assert paths[i..][1..] == paths[i + 1..];
        if paths[i] != "version_template.algorithm" {
          return key, InvalidArgument;
        }
        if template.None? {
          return key, Panic;
        }
        code := ValidateAlgorithm(template.value, key.purpose);
        if code != OK {
          return key, code;
        }
        key := key.(algorithm := template.value);
      }
      code := OK;
    }

    method UpdateCryptoKeyVersion(name: string, state: VersionState, paths: seq<string>) returns (code: Code)
      modifies this
      ensures (Abs(), code) == FakeKms.Handle(old(Abs()), Rpc.UpdateCryptoKeyVersion(name, state, paths))
    {
      if paths == [] {
        return InvalidArgument;
      }
      var v := ParseVersion(name);
      if v.None? {
        return InvalidArgument;
      }
      var k := v.value.cryptoKey;
      if !Knows(k) || v.value !in rings[k.keyRing].keys[k].versions {
        return NotFound;
      }
      var key := rings[k.keyRing].keys[k];
      var version;
      version, code := ApplyVersionPaths(key.versions[v.value], state, paths);
      Store(k, key.(versions := key.versions[v.value := version]));
    }

    /** The loop over the update mask of UpdateCryptoKeyVersion. */
    method ApplyVersionPaths(version0: Version, state: VersionState, paths: seq<string>) returns (version: Version, code: Code)
      ensures (version, code) == PatchVersion(version0, state, paths)
    {
      version := version0;
      for i := 0 to |paths|
        invariant PatchVersion(version, state, paths[i..]) == PatchVersion(version0, state, paths)
      {
        assert paths[i..][1..] == paths[i + 1..];
        if paths[i] != "state" || (!state.Enabled? && !state.Disabled?) {
          return version, InvalidArgument;
        }
        version := version.(state := state);
      }
      code := OK;
    }

    method DestroyCryptoKeyVersion(name: string) returns (code: Code)
      modifies this
      ensures (Abs(), code) == FakeKms.Handle(old(Abs()), Rpc.DestroyCryptoKeyVersion(name))
    {
      var v := ParseVersion(name);
      if v.None? {
        return InvalidArgument;
      }
      var k := v.value.cryptoKey;
      if !Knows(k) || v.value !in rings[k.keyRing].keys[k].versions {
        return NotFound;
      }
      var key := rings[k.keyRing].keys[k];
      var version := key.versions[v.value];
      if !version.state.Enabled? && !version.state.Disabled? {
        return FailedPrecondition;
      }
      Store(k, key.(versions := key.versions[v.value := version.(state := DestroyScheduled)]));
      code := OK;
    }

    /** The RPC dispatch: every write RPC, whatever its outcome, leaves a well-formed tree. */
    method Serve(rpc: Rpc) returns (code: Code)
      requires TreeOk(Abs())
      modifies this
      ensures (Abs(), code) == FakeKms.Handle(old(Abs()), rpc) && TreeOk(Abs())
    {
      HandleKeepsTree(Abs(), rpc);
      match rpc
      case CreateKeyRing(parent, id) => code := CreateKeyRing(parent, id);
      case CreateCryptoKey(parent, id, purpose, algorithm, protection, skip) =>
        code := CreateCryptoKey(parent, id, purpose, algorithm, protection, skip);
      case CreateCryptoKeyVersion(parent) => code := CreateCryptoKeyVersion(parent);
      case UpdateCryptoKey(patch, paths) => code := UpdateCryptoKey(patch, paths);
      case UpdateCryptoKeyVersion(name, state, paths) => code := UpdateCryptoKeyVersion(name, state, paths);
      case DestroyCryptoKeyVersion(name) => code := DestroyCryptoKeyVersion(name);
      case ReadOnly => code := OK;
    }
  }
}
