/** kmsp11/object_loader.cc: the handle-allocating cache and the refresh that feeds it.

    `Cache` keeps one `Key` per CryptoKeyVersion name together with the set of handles in
    use. `ObjectLoader.BuildState` walks the KMS listing, reuses cached keys, stores new ones
    and finally evicts what was not listed. */
module ObjectLoader {
  import opened Basics

  /** RandomHandle draws uniformly from [1, HANDLE_LIMIT). */
  const HANDLE_LIMIT: nat := 0xFFFF_FFFF_FFFF_FFFF

  datatype CryptoKey = CryptoKey(name: string, purpose: Purpose, protection: ProtectionLevel)

  datatype Version = Version(name: string, state: VersionState, algorithm: Algorithm)

  datatype Certificate = Certificate(x509: Bytes, handle: Handle)

  /** The `Key` message of object_store_state.proto; an unset handle is 0. */
  datatype Key = Key(
    version: Version,
    publicKeyDer: Bytes,
    publicHandle: Handle,
    privateHandle: Handle,
    certificate: Option<Certificate>,
    secretHandle: Handle)

  // ---------------------------------------------------------------------------------------
  // What KMS answers during one refresh
  // ---------------------------------------------------------------------------------------

  /** `publicKeyDer`: the DER obtained from GetPublicKey, or None when the RPC or the
      conversion fails. `generatedCert`: what the certificate authority would produce. */
  datatype VersionReply = VersionReply(
    version: Version, publicKeyDer: Option<Bytes>, generatedCert: Option<Bytes>)

  datatype KeyListing = KeyListing(key: CryptoKey, versions: Stream<VersionReply>)

  datatype Config = Config(
    userCerts: map<Bytes, Bytes>, generateCerts: bool, supported: Algorithm -> bool)

  /** A loadable version as BuildState meets it. */
  datatype Item = Item(purpose: Purpose, reply: VersionReply) {
    function Name(): string { reply.version.name }

    predicate Symmetric() { purpose == Mac || purpose == RawEncryptDecrypt }
  }

  predicate KeyLoadable(key: CryptoKey) {
    && (key.purpose.AsymmetricDecrypt? || key.purpose.AsymmetricSign?
        || key.purpose.Mac? || key.purpose.RawEncryptDecrypt?)
    && key.protection == Hsm
  }

  predicate VersionLoadable(config: Config, v: Version) {
    v.state == Enabled && config.supported(v.algorithm)
  }

  /** The plain filter of one key's versions, in listing order. */
  function VersionItems(config: Config, purpose: Purpose, replies: seq<VersionReply>): seq<Item> {
    if replies == [] then []
    else
      var last := replies[|replies| - 1];
      VersionItems(config, purpose, replies[..|replies| - 1]) +
      if VersionLoadable(config, last.version) then [Item(purpose, last)] else []
  }

  function KeyItems(config: Config, listing: KeyListing): seq<Item> {
    if KeyLoadable(listing.key)
    then VersionItems(config, listing.key.purpose, listing.versions.items)
    else []
  }

  /** The plain filter of a whole listing: every loadable version of every loadable key. */
  function Items(config: Config, listings: seq<KeyListing>): seq<Item> {
    if listings == [] then []
    else Items(config, listings[..|listings| - 1]) + KeyItems(config, listings[|listings| - 1])
  }

  function Names(items: seq<Item>): set<string> {
    set i | 0 <= i < |items| :: items[i].Name()
  }

  /** The certificate stored with a public key; None if generating it fails, [] if there is none. */
  function CertFor(config: Config, der: Bytes, reply: VersionReply): Option<Bytes> {
    if der in config.userCerts then Some(config.userCerts[der])
    else if config.generateCerts then reply.generatedCert
    else Some([])
  }

  predicate Fetchable(config: Config, item: Item) {
    || item.Symmetric()
    || (item.reply.publicKeyDer.Some?
        && CertFor(config, item.reply.publicKeyDer.value, item.reply).Some?)
  }

  /** `key` is what the loader stores for `item`, up to the choice of handles. */
  predicate MadeFrom(config: Config, item: Item, key: Key) {
    && key.version == item.reply.version
    && if item.Symmetric() then
         && key.secretHandle != 0
         && key.publicHandle == key.privateHandle == 0
         && key.certificate.None? && key.publicKeyDer == []
       else
         && Fetchable(config, item)
         && key.publicKeyDer == item.reply.publicKeyDer.value
         && var cert := CertFor(config, key.publicKeyDer, item.reply).value;
         && key.secretHandle == 0
         && key.publicHandle != 0 && key.privateHandle != 0
         && (cert == [] ==> key.certificate.None?)
         && (cert != [] ==> key.certificate.Some? && key.certificate.value.x509 == cert)
  }

  // ---------------------------------------------------------------------------------------
  // The handle ledger
  // ---------------------------------------------------------------------------------------

  /** `h` is one of the handles of `key`. */
  predicate Holds(key: Key, h: Handle) {
    && h != 0
    && (|| h == key.publicHandle || h == key.privateHandle || h == key.secretHandle
        || (key.certificate.Some? && h == key.certificate.value.handle))
  }

  /** Either one secret handle, or a key pair with pairwise distinct handles. */
  predicate WellShaped(key: Key) {
    if key.secretHandle != 0 then
      && key.secretHandle < HANDLE_LIMIT
      && key.publicHandle == key.privateHandle == 0 && key.certificate.None?
    else
      && 0 < key.publicHandle < HANDLE_LIMIT && 0 < key.privateHandle < HANDLE_LIMIT
      && key.publicHandle != key.privateHandle
      && (key.certificate.Some? ==>
            && 0 < key.certificate.value.handle < HANDLE_LIMIT
            && key.certificate.value.handle !in {key.publicHandle, key.privateHandle})
  }

  predicate Held(keys: map<string, Key>, h: Handle) {
    exists n :: n in keys && Holds(keys[n], h)
  }

  /** The handles in use are exactly those of the cached keys, and no two keys share one. */
  ghost predicate Ledger(keys: map<string, Key>, inUse: set<Handle>) {
    && (forall n :: n in keys ==> keys[n].version.name == n && WellShaped(keys[n]))
    && (forall m, n, h :: m in keys && n in keys && Holds(keys[m], h) && Holds(keys[n], h) ==> m == n)
    && (forall h :: h in inUse <==> Held(keys, h))
  }

  /** `inUse'` adds to `inUse` exactly the handles of `key`, all of them new. */
  ghost predicate Adds(inUse: set<Handle>, key: Key, inUse': set<Handle>) {
    && (forall h :: h in inUse' <==> h in inUse || Holds(key, h))
    && (forall h :: h in inUse ==> !Holds(key, h))
  }

  /** Storing a key keeps the ledger exactly when its name was not cached before: overwriting
      a cached key would leave its handles in use for good. */
  lemma StoreKeepsLedger(
    keys: map<string, Key>, inUse: set<Handle>, name: string, key: Key, inUse': set<Handle>)
    requires Ledger(keys, inUse)
    requires key.version.name == name && WellShaped(key) && Adds(inUse, key, inUse')
    ensures Ledger(keys[name := key], inUse') <==> name !in keys
  {
    var keys' := keys[name := key];
    if name in keys {
      var lost := keys[name];
      var h := if lost.secretHandle != 0 then lost.secretHandle else lost.publicHandle;
      assert Holds(lost, h);
      assert Held(keys, h);
      assert !Held(keys', h);
    } else {
      forall n, h | n in keys && Holds(keys[n], h) ensures !Holds(key, h) {
        assert Held(keys, h);
      }
      forall h ensures h in inUse' <==> Held(keys', h) {
        if h in inUse' {
          if Holds(key, h) {
            assert name in keys' && Holds(keys'[name], h);
          } else {
            var n :| n in keys && Holds(keys[n], h);
            assert n in keys' && Holds(keys'[n], h);
          }
        }
      }
    }
  }

  /** Evicting a key and freeing its handles keeps the ledger. */
  lemma EvictKeepsLedger(keys: map<string, Key>, inUse: set<Handle>, name: string, inUse': set<Handle>)
    requires Ledger(keys, inUse) && name in keys
    requires forall h :: h in inUse' <==> h in inUse && !Holds(keys[name], h)
    ensures Ledger(keys - {name}, inUse')
  {
    var keys' := keys - {name};
    forall h ensures h in inUse' <==> Held(keys', h) {
      if h in inUse' {
        var n :| n in keys && Holds(keys[n], h);
        assert n in keys' && Holds(keys'[n], h);
      }
    }
  }

  /** The handles of keys that are new in `keys'` were free before. */
  ghost predicate NewHandlesFree(keys: map<string, Key>, inUse: set<Handle>, keys': map<string, Key>) {
    forall n, h :: n in keys' && n !in keys && Holds(keys'[n], h) ==> h !in inUse
  }

  lemma LedgerFreesHandles(keys: map<string, Key>, inUse: set<Handle>, keys': map<string, Key>, inUse': set<Handle>)
    requires Ledger(keys, inUse) && Ledger(keys', inUse') && keys.Keys <= keys'.Keys && Agrees(keys, keys')
    ensures NewHandlesFree(keys, inUse, keys')
  {
  }

  // ---------------------------------------------------------------------------------------
  // Random handles
  // ---------------------------------------------------------------------------------------

  ghost predicate DrawnAfter(tape: nat -> Handle, start: nat, h: Handle) {
    exists j: nat :: start <= j && tape(j) == h
  }

  /** The random source: draws lie in range and every handle keeps coming up. */
  ghost predicate FairTape(tape: nat -> Handle) {
    && (forall i: nat :: 0 < tape(i) < HANDLE_LIMIT)
    && (forall start: nat, h: Handle :: 0 < h < HANDLE_LIMIT ==> DrawnAfter(tape, start, h))
  }

  lemma {:induction false} UpTo(n: nat) returns (s: set<Handle>)
    ensures |s| == n && forall h :: h in s <==> 0 < h <= n
  {
    if n == 0 {
      s := {};
    } else {
      var smaller := UpTo(n - 1);
      s := smaller + {n};
    }
  }

  lemma FreeHandle(inUse: set<Handle>) returns (h: Handle)
    requires |inUse| < HANDLE_LIMIT - 1
    ensures 0 < h < HANDLE_LIMIT && h !in inUse
  {
    var all := UpTo(HANDLE_LIMIT - 1);
    if all <= inUse {
      SubsetSize(all, inUse);
      assert false;
    }
    h :| h in all && h !in inUse;
  }

  lemma {:induction false} SubsetSize<T>(a: set<T>, b: set<T>)
    requires a <= b
    ensures |a| <= |b|
  {
    if a != {} {
      var x :| x in a;
      SubsetSize(a - {x}, b - {x});
    }
  }

  // ---------------------------------------------------------------------------------------
  // ObjectLoader::Cache
  // ---------------------------------------------------------------------------------------

  class Cache {
    var keys: map<string, Key>
    var inUse: set<Handle>
    const tape: nat -> Handle
    var drawn: nat

    constructor (tape: nat -> Handle)
      requires FairTape(tape)
      ensures Valid() && keys == map[] && inUse == {}
    {
      this.tape := tape;
      keys, inUse, drawn := map[], {}, 0;
    }

    ghost predicate Valid()
      reads this
    {
      FairTape(tape) && Ledger(keys, inUse)
    }

    method NewHandle() returns (handle: Handle)
      requires FairTape(tape) && |inUse| < HANDLE_LIMIT - 1
      modifies this`inUse, this`drawn
      ensures 0 < handle < HANDLE_LIMIT && handle !in old(inUse)
      ensures inUse == old(inUse) + {handle}
    {
      ghost var free := FreeHandle(inUse);
      assert DrawnAfter(tape, drawn, free);
      ghost var j: nat :| drawn <= j && tape(j) == free;
      handle := tape(drawn);
      drawn := drawn + 1;
      while handle in inUse
        invariant inUse == old(inUse) && 0 < drawn <= j + 1 && handle == tape(drawn - 1)
        decreases j + 1 - drawn
      {
        handle := tape(drawn);
        drawn := drawn + 1;
      }
      inUse := inUse + {handle};
    }

    method Store(v: Version, der: Bytes, certDer: Bytes) returns (key: Key)
      requires Valid() && |inUse| + 3 < HANDLE_LIMIT
      modifies this
      ensures keys == old(keys)[v.name := key]
      ensures Adds(old(inUse), key, inUse) && |inUse| <= |old(inUse)| + 3
      ensures key.version == v && key.publicKeyDer == der
      ensures key.secretHandle == 0 && WellShaped(key)
      ensures key.certificate.Some? <==> certDer != []
      ensures key.certificate.Some? ==> key.certificate.value.x509 == certDer
      ensures Valid() <==> v.name !in old(keys)
    {
      key := NewKeyPair(v, der, certDer);
      keys := keys[v.name := key];
      StoreKeepsLedger(old(keys), old(inUse), v.name, key, inUse);
    }

    /** The part of Store that fills in the handles. */
    method NewKeyPair(v: Version, der: Bytes, certDer: Bytes) returns (key: Key)
      requires FairTape(tape) && |inUse| + 3 < HANDLE_LIMIT
      modifies this`inUse, this`drawn
      ensures Adds(old(inUse), key, inUse) && |inUse| <= |old(inUse)| + 3
      ensures key.version == v && key.publicKeyDer == der
      ensures key.secretHandle == 0 && WellShaped(key)
      ensures key.certificate.Some? <==> certDer != []
      ensures key.certificate.Some? ==> key.certificate.value.x509 == certDer
    {
      var publicHandle := NewHandle();
      var privateHandle := NewHandle();
      key := Key(v, der, publicHandle, privateHandle, None, 0);
      if certDer != [] {
        var certHandle := NewHandle();
        key := key.(certificate := Some(Certificate(certDer, certHandle)));
      }
    }

    method StoreSecretKey(v: Version) returns (key: Key)
      requires Valid() && |inUse| + 1 < HANDLE_LIMIT
      modifies this
      ensures keys == old(keys)[v.name := key]
      ensures Adds(old(inUse), key, inUse) && |inUse| <= |old(inUse)| + 1
      ensures key.version == v && key.publicKeyDer == []
      ensures key.secretHandle != 0 && WellShaped(key)
      ensures Valid() <==> v.name !in old(keys)
    {
      var secretHandle := NewHandle();
      key := Key(v, [], 0, 0, None, secretHandle);
      keys := keys[v.name := key];
      StoreKeepsLedger(old(keys), old(inUse), v.name, key, inUse);
    }

    method EvictUnused(state: seq<Key>)
      requires Valid()
      modifies this
      ensures Valid()
      ensures keys == Retained(old(keys), StateNames(state))
    {
      var retain := StateNames(state);
      var todo := keys.Keys;
      while todo != {}
        invariant Valid() && todo <= keys.Keys
        invariant keys == Retained(old(keys), todo + retain)
        decreases todo
      {
        var n :| n in todo;
        todo := todo - {n};
        if n !in retain {
          Evict(n);
        }
      }
    }

    /** The loop body of EvictUnused for a name that is not retained. */
    method Evict(name: string)
      requires Valid() && name in keys
      modifies this
      ensures Valid()
      ensures keys == old(keys) - {name}
    {
      var key := keys[name];
      if key.publicHandle != 0 {
        inUse := inUse - {key.publicHandle};
      }
      if key.privateHandle != 0 {
        inUse := inUse - {key.privateHandle};
      }
      if key.certificate.Some? {
        inUse := inUse - {key.certificate.value.handle};
      }
      if key.secretHandle != 0 {
        inUse := inUse - {key.secretHandle};
      }
      keys := keys - {name};
      EvictKeepsLedger(old(keys), old(inUse), name, inUse);
    }
  }

  function StateNames(state: seq<Key>): set<string> {
    set i | 0 <= i < |state| :: state[i].version.name
  }

  function Retained(keys: map<string, Key>, names: set<string>): map<string, Key> {
    map n | n in keys && n in names :: keys[n]
  }

  // ---------------------------------------------------------------------------------------
  // ObjectLoader::BuildState
  // ---------------------------------------------------------------------------------------

  /** `items[i]` is neither cached nor met earlier in the same listing. */
  predicate IsNew(keys: map<string, Key>, items: seq<Item>, i: nat)
    requires i < |items|
  {
    items[i].Name() !in keys && forall j :: 0 <= j < i ==> items[j].Name() != items[i].Name()
  }

  /** `keys'` agrees with `keys` wherever both are defined. */
  predicate Agrees(keys: map<string, Key>, keys': map<string, Key>) {
    forall n :: n in keys && n in keys' ==> keys'[n] == keys[n]
  }

  /** `out` lists, item by item, what `keys'` holds; names that were new hold what the loader
      makes for their first occurrence. */
  ghost predicate Delivered(
    config: Config, keys: map<string, Key>, items: seq<Item>, keys': map<string, Key>, out: seq<Key>)
  {
    && |out| == |items|
    && (forall i :: 0 <= i < |items| ==> items[i].Name() in keys' && out[i] == keys'[items[i].Name()])
    && (forall i :: 0 <= i < |items| && IsNew(keys, items, i) ==> MadeFrom(config, items[i], out[i]))
  }

  /** The cache after absorbing `items` and before eviction. */
  ghost predicate Absorbed(
    config: Config, keys: map<string, Key>, items: seq<Item>, keys': map<string, Key>, out: seq<Key>)
  {
    && keys'.Keys == keys.Keys + Names(items)
    && Agrees(keys, keys')
    && Delivered(config, keys, items, keys', out)
  }

  /** A successful refresh: the cache is left holding exactly the listed loadable versions. */
  ghost predicate BuildOk(
    config: Config, keys: map<string, Key>, listing: Stream<KeyListing>,
    keys': map<string, Key>, out: seq<Key>)
  {
    var items := Items(config, listing.items);
    && keys'.Keys == Names(items)
    && Agrees(keys, keys')
    && Delivered(config, keys, items, keys', out)
  }

  /** A refresh that failed part way: a prefix of the listing was absorbed, nothing was evicted. */
  ghost predicate BuildFailed(
    config: Config, keys: map<string, Key>, listing: Stream<KeyListing>, keys': map<string, Key>)
  {
    exists done, out ::
      done <= Items(config, listing.items) && Absorbed(config, keys, done, keys', out)
  }

  /** Exactly when a refresh succeeds, as a function of the cache and of what KMS answers. */
  predicate CanBuild(config: Config, keys: map<string, Key>, listing: Stream<KeyListing>) {
    var items := Items(config, listing.items);
    && !listing.failed
    && NoFailureIn(listing.items, |listing.items|)
    && (forall i :: 0 <= i < |items| && IsNew(keys, items, i) ==> Fetchable(config, items[i]))
  }

  lemma AbsorbHit(
    config: Config, keys: map<string, Key>, items: seq<Item>, keys': map<string, Key>, out: seq<Key>,
    item: Item)
    requires Absorbed(config, keys, items, keys', out) && item.Name() in keys'
    ensures Absorbed(config, keys, items + [item], keys', out + [keys'[item.Name()]])
  {
    ExtendItems(keys, items, item);
    if item.Name() !in keys {
      var j :| 0 <= j < |items| && items[j].Name() == item.Name();
      assert (items + [item])[j].Name() == item.Name();
    }
  }

  lemma AbsorbNew(
    config: Config, keys: map<string, Key>, items: seq<Item>, keys': map<string, Key>, out: seq<Key>,
    item: Item, key: Key)
    requires Absorbed(config, keys, items, keys', out) && item.Name() !in keys'
    requires MadeFrom(config, item, key)
    ensures Absorbed(config, keys, items + [item], keys'[item.Name() := key], out + [key])
    ensures IsNew(keys, items + [item], |items|)
  {
    ExtendItems(keys, items, item);
    assert forall j :: 0 <= j < |items| ==> items[j].Name() in Names(items);
  }

  lemma ExtendItems(keys: map<string, Key>, items: seq<Item>, item: Item)
    ensures Names(items + [item]) == Names(items) + {item.Name()}
    ensures forall i :: 0 <= i < |items| ==> (IsNew(keys, items + [item], i) <==> IsNew(keys, items, i))
  {
    var more := items + [item];
    forall n ensures n in Names(more) <==> n in Names(items) + {item.Name()} {
      if n in Names(items) {
        var i :| 0 <= i < |items| && items[i].Name() == n;
        assert more[i].Name() == n;
      }
      if n == item.Name() {
        assert more[|items|].Name() == n;
      }
    }
    forall i | 0 <= i < |items| ensures IsNew(keys, more, i) <==> IsNew(keys, items, i) {
      NewInPrefix(keys, items, more, i);
    }
  }

  /** What is a new item stays one, whatever follows it in the listing. */
  lemma NewInPrefix(keys: map<string, Key>, items: seq<Item>, more: seq<Item>, i: nat)
    requires items <= more && i < |items|
    ensures IsNew(keys, more, i) <==> IsNew(keys, items, i)
  {
  }

  lemma {:induction false} ItemsPrefix(config: Config, listings: seq<KeyListing>, i: nat)
    requires i <= |listings|
    ensures Items(config, listings[..i]) <= Items(config, listings)
  {
    if i == |listings| {
      assert listings[..i] == listings;
    } else {
      ItemsPrefix(config, listings[..|listings| - 1], i);
      assert listings[..|listings| - 1][..i] == listings[..i];
    }
  }

  lemma {:induction false} VersionItemsPrefix(config: Config, purpose: Purpose, replies: seq<VersionReply>, i: nat)
    requires i <= |replies|
    ensures VersionItems(config, purpose, replies[..i]) <= VersionItems(config, purpose, replies)
  {
    if i == |replies| {
      assert replies[..i] == replies;
    } else {
      VersionItemsPrefix(config, purpose, replies[..|replies| - 1], i);
      assert replies[..|replies| - 1][..i] == replies[..i];
    }
  }

  class ObjectLoader {
    const config: Config
    const cache: Cache

    constructor (config: Config, tape: nat -> Handle)
      requires FairTape(tape)
      ensures this.config == config && fresh(cache)
      ensures cache.Valid() && cache.keys == map[]
    {
      this.config := config;
      cache := new Cache(tape);
    }

    /** The refresh. It succeeds exactly when KMS answers everything it has to ask, and then
        delivers the plain filter of the listing whatever the cache held; a refresh that fails
        part way leaves every cached key alone. The ledger is kept in both cases, and a key that
        is new gets handles that were free when the refresh began. */
    method BuildState(listing: Stream<KeyListing>) returns (result: Option<seq<Key>>)
      requires cache.Valid()
      requires |cache.inUse| + 3 * |Items(config, listing.items)| < HANDLE_LIMIT
      modifies cache
      ensures cache.Valid()
      ensures NewHandlesFree(old(cache.keys), old(cache.inUse), cache.keys)
      ensures result.Some? <==> CanBuild(config, old(cache.keys), listing)
      ensures result.Some? ==> BuildOk(config, old(cache.keys), listing, cache.keys, result.value)
      ensures result.None? ==> BuildFailed(config, old(cache.keys), listing, cache.keys)
    {
      var out, ok := LoadKeys(listing);
      LedgerFreesHandles(old(cache.keys), old(cache.inUse), cache.keys, cache.inUse);
      if !ok {
        return None;
      }
      ghost var keys1 := cache.keys;
      cache.EvictUnused(out);
      BuildComplete(config, old(cache.keys), listing, keys1, out);
      result := Some(out);
    }

    /** The outer loop of BuildState, over the listed keys. */
    method LoadKeys(listing: Stream<KeyListing>) returns (out: seq<Key>, ok: bool)
      requires cache.Valid()
      requires |cache.inUse| + 3 * |Items(config, listing.items)| < HANDLE_LIMIT
      modifies cache
      ensures cache.Valid()
      ensures ok ==> !listing.failed && NoFailureIn(listing.items, |listing.items|)
      ensures ok ==> Absorbed(config, old(cache.keys), Items(config, listing.items), cache.keys, out)
      ensures !ok ==> !CanBuild(config, old(cache.keys), listing)
      ensures !ok ==> BuildFailed(config, old(cache.keys), listing, cache.keys)
    {
      ghost var keys0, inUse0 := cache.keys, |cache.inUse|;
      out := [];
      ghost var done: seq<Item> := [];
      for i := 0 to |listing.items|
        invariant cache.Valid() && |cache.inUse| <= Room(inUse0, 0, |done|)
        invariant Loading(config, keys0, listing.items, i, cache.keys, out, done)
      {
        ghost var here := NextItems(config, listing.items, i, done);
        if KeyLoadable(listing.items[i].key) {
          out, ok, done := LoadVersions(listing.items[i], keys0, done, out);
          if !ok {
            LoadFailed(config, keys0, listing, here, cache.keys, done, out);
            return;
          }
        }
        LoadedOne(config, keys0, listing.items, i, cache.keys, out, done);
      }
      ok := !listing.failed;
      assert listing.items[..|listing.items|] == listing.items;
      if !ok {
        LoadFailed(config, keys0, listing, done, cache.keys, done, out);
      }
    }

    /** The inner loop of BuildState, over the versions of one loadable key. */
    method LoadVersions(listing: KeyListing, ghost keys0: map<string, Key>, ghost before: seq<Item>, out0: seq<Key>)
      returns (out: seq<Key>, ok: bool, ghost done: seq<Item>)
      requires cache.Valid() && KeyLoadable(listing.key)
      requires Absorbed(config, keys0, before, cache.keys, out0)
      requires |cache.inUse| + 3 * |KeyItems(config, listing)| < HANDLE_LIMIT
      modifies cache
      ensures cache.Valid()
      ensures Absorbed(config, keys0, done, cache.keys, out)
      ensures |before| <= |done| && |cache.inUse| <= Room(old(|cache.inUse|), |before|, |done|)
      ensures ok ==> !listing.versions.failed && done == before + KeyItems(config, listing)
      ensures !ok ==> done <= before + KeyItems(config, listing)
      ensures !ok ==> listing.versions.failed || Stuck(config, keys0, before + KeyItems(config, listing), |done|)
    {
      out, done := out0, before;
      ghost var purpose, replies := listing.key.purpose, listing.versions.items;
      assert replies[..0] == [];
      for i := 0 to |listing.versions.items|
        invariant cache.Valid() && done == before + VersionItems(config, purpose, replies[..i])
        invariant Absorbed(config, keys0, done, cache.keys, out)
        invariant |before| <= |done| && |cache.inUse| <= Room(old(|cache.inUse|), |before|, |done|)
      {
        NextVersionItems(config, before, purpose, replies, i, done);
        var reply := listing.versions.items[i];
        if VersionLoadable(config, reply.version) {
          var key := LoadVersion(listing.key.purpose, reply, keys0, done, out);
          if key.None? {
            NewInPrefix(keys0, done + [Item(purpose, reply)], before + KeyItems(config, listing), |done|);
            ok := false;
            return;
          }
          out, done := out + [key.value], done + [Item(purpose, reply)];
        }
      }
      assert replies[..|replies|] == replies;
      ok := !listing.versions.failed;
    }

    /** One loadable version: a cache hit, a new secret key, or a new key pair. */
    method LoadVersion(purpose: Purpose, reply: VersionReply, ghost keys0: map<string, Key>, ghost done: seq<Item>, ghost out: seq<Key>)
      returns (key: Option<Key>)
      requires cache.Valid() && |cache.inUse| + 3 < HANDLE_LIMIT
      requires Absorbed(config, keys0, done, cache.keys, out)
      modifies cache
      ensures cache.Valid() && |cache.inUse| <= old(|cache.inUse|) + 3
      ensures key.Some? ==> Absorbed(config, keys0, done + [Item(purpose, reply)], cache.keys, out + [key.value])
      ensures key.None? ==> cache.keys == old(cache.keys) && cache.inUse == old(cache.inUse)
                            && IsNew(keys0, done + [Item(purpose, reply)], |done|)
                            && !Fetchable(config, Item(purpose, reply))
    {
      ghost var item := Item(purpose, reply);
      if reply.version.name in cache.keys {
        AbsorbHit(config, keys0, done, cache.keys, out, item);
        return Some(cache.keys[reply.version.name]);
      }
      assert IsNew(keys0, done + [item], |done|) by {
        assert forall j :: 0 <= j < |done| ==> done[j].Name() in Names(done);
      }
      var stored;
      if purpose == Mac || purpose == RawEncryptDecrypt {
        stored := cache.StoreSecretKey(reply.version);
      } else {
        if reply.publicKeyDer.None? {
          return None;
        }
        var cert := CertFor(config, reply.publicKeyDer.value, reply);
        if cert.None? {
          return None;
        }
        stored := cache.Store(reply.version, reply.publicKeyDer.value, cert.value);
      }
      AbsorbNew(config, keys0, done, old(cache.keys), out, item, stored);
      key := Some(stored);
    }
  }

  /** Upper bound on the handles in use after the item count grew from `from` to `to`. */
  function Room(inUse: nat, from: int, to: int): int { inUse + 3 * (to - from) }

  /** Item `i` has to be fetched and cannot be. */
  predicate Stuck(config: Config, keys: map<string, Key>, items: seq<Item>, i: nat) {
    i < |items| && IsNew(keys, items, i) && !Fetchable(config, items[i])
  }

  predicate ListingFails(listing: KeyListing) {
    KeyLoadable(listing.key) && listing.versions.failed
  }

  /** None of the first `n` version listings fails. */
  predicate NoFailureIn(listings: seq<KeyListing>, n: nat) {
    forall k :: 0 <= k < n && k < |listings| ==> !ListingFails(listings[k])
  }

  /** The state of the outer loop before key `i`. */
  ghost predicate Loading(
    config: Config, keys0: map<string, Key>, listings: seq<KeyListing>, i: nat,
    keys: map<string, Key>, out: seq<Key>, done: seq<Item>)
  {
    && i <= |listings|
    && done == Items(config, listings[..i])
    && Absorbed(config, keys0, done, keys, out)
    && NoFailureIn(listings, i)
  }

  lemma LoadedOne(
    config: Config, keys0: map<string, Key>, listings: seq<KeyListing>, i: nat,
    keys: map<string, Key>, out: seq<Key>, done: seq<Item>)
    requires i < |listings| && NoFailureIn(listings, i) && !ListingFails(listings[i])
    requires done == Items(config, listings[..i + 1])
    requires Absorbed(config, keys0, done, keys, out)
    ensures Loading(config, keys0, listings, i + 1, keys, out, done)
  {
  }

  lemma NextItems(config: Config, listings: seq<KeyListing>, i: nat, done: seq<Item>) returns (here: seq<Item>)
    requires i < |listings| && done == Items(config, listings[..i])
    ensures here == done + KeyItems(config, listings[i]) == Items(config, listings[..i + 1])
    ensures here <= Items(config, listings) && |here| == |done| + |KeyItems(config, listings[i])|
    ensures !KeyLoadable(listings[i].key) ==> here == done
  {
    assert listings[..i + 1][..i] == listings[..i];
    ItemsPrefix(config, listings, i + 1);
    here := Items(config, listings[..i + 1]);
  }

  lemma NextVersionItems(
    config: Config, before: seq<Item>, purpose: Purpose, replies: seq<VersionReply>, i: nat, done: seq<Item>)
    requires i < |replies| && done == before + VersionItems(config, purpose, replies[..i])
    ensures before + VersionItems(config, purpose, replies[..i + 1])
         == if VersionLoadable(config, replies[i].version) then done + [Item(purpose, replies[i])] else done
    ensures before + VersionItems(config, purpose, replies[..i + 1])
         <= before + VersionItems(config, purpose, replies)
    ensures done <= before + VersionItems(config, purpose, replies)
  {
    assert replies[..i + 1][..i] == replies[..i];
    VersionItemsPrefix(config, purpose, replies, i + 1);
  }

  /** Stopping after `done` is a failed refresh, and the answers did not allow any other outcome. */
  lemma LoadFailed(
    config: Config, keys: map<string, Key>, listing: Stream<KeyListing>, here: seq<Item>,
    keys': map<string, Key>, done: seq<Item>, out: seq<Key>)
    requires Absorbed(config, keys, done, keys', out)
    requires done <= here <= Items(config, listing.items)
    requires || listing.failed
             || (exists k :: 0 <= k < |listing.items| && ListingFails(listing.items[k]))
             || Stuck(config, keys, here, |done|)
    ensures BuildFailed(config, keys, listing, keys') && !CanBuild(config, keys, listing)
  {
  }

  /** Eviction turns an absorbed listing into a successful refresh. */
  lemma BuildComplete(
    config: Config, keys: map<string, Key>, listing: Stream<KeyListing>,
    keys1: map<string, Key>, out: seq<Key>)
    requires !listing.failed && NoFailureIn(listing.items, |listing.items|)
    requires Absorbed(config, keys, Items(config, listing.items), keys1, out)
    requires forall n :: n in keys1 ==> keys1[n].version.name == n
    ensures BuildOk(config, keys, listing, Retained(keys1, StateNames(out)), out)
    ensures CanBuild(config, keys, listing)
  {
  }

  /** The cache holds exactly the keys of `out`. */
  predicate Mirrors(keys: map<string, Key>, out: seq<Key>) {
    && keys.Keys == StateNames(out)
    && forall k :: 0 <= k < |out| ==> out[k].version.name in keys && keys[out[k].version.name] == out[k]
  }

  /** A successful refresh leaves the cache equal to its result. */
  lemma BuildMirrors(
    config: Config, keys: map<string, Key>, listing: Stream<KeyListing>,
    keys': map<string, Key>, out: seq<Key>)
    requires BuildOk(config, keys, listing, keys', out)
    requires forall n :: n in keys' ==> keys'[n].version.name == n
    ensures Mirrors(keys', out)
    ensures forall k :: 0 <= k < |out| ==> out[k].version.name == Items(config, listing.items)[k].Name()
  {
  }

  // ---------------------------------------------------------------------------------------
  // What is loaded
  // ---------------------------------------------------------------------------------------

  lemma {:induction false} VersionItemsAppend(config: Config, purpose: Purpose, a: seq<VersionReply>, b: seq<VersionReply>)
    ensures VersionItems(config, purpose, a + b) == VersionItems(config, purpose, a) + VersionItems(config, purpose, b)
  {
    if b == [] {
      assert a + b == a;
    } else {
      var init, last := b[..|b| - 1], b[|b| - 1];
      VersionItemsAppend(config, purpose, a, init);
      assert (a + b)[..|a + b| - 1] == a + init;
      Associative(VersionItems(config, purpose, a), VersionItems(config, purpose, init),
                  if VersionLoadable(config, last.version) then [Item(purpose, last)] else []);
    }
  }

  lemma Associative(x: seq<Item>, y: seq<Item>, z: seq<Item>)
    ensures x + y + z == x + (y + z)
  {
  }

  /** Listings are loaded one after the other. */
  lemma {:induction false} ItemsAppend(config: Config, a: seq<KeyListing>, b: seq<KeyListing>)
    ensures Items(config, a + b) == Items(config, a) + Items(config, b)
  {
    if b == [] {
      assert a + b == a;
    } else {
      var init, last := b[..|b| - 1], KeyItems(config, b[|b| - 1]);
      ItemsAppend(config, a, init);
      assert (a + b)[..|a + b| - 1] == a + init;
      Associative(Items(config, a), Items(config, init), last);
    }
  }

  /** A version of a key is loaded if and only if the key is an HSM key for decryption or signing with
      an asymmetric key, for MACs or for raw encryption, and the version is enabled and of a
      supported algorithm. */
  lemma OneVersionLoaded(config: Config, key: CryptoKey, reply: VersionReply, failed: bool)
    ensures Items(config, [KeyListing(key, Stream([reply], failed))])
         == if && key.purpose in {AsymmetricDecrypt, AsymmetricSign, Mac, RawEncryptDecrypt} && key.protection == Hsm
               && reply.version.state == Enabled && config.supported(reply.version.algorithm)
            then [Item(key.purpose, reply)] else []
  {
    var listing := KeyListing(key, Stream([reply], failed));
    assert [listing][..0] == [] && [reply][..0] == [];
    assert Items(config, []) == [] && VersionItems(config, key.purpose, []) == [];
    assert VersionItems(config, key.purpose, [reply]) ==
           if VersionLoadable(config, reply.version) then [Item(key.purpose, reply)] else [];
    assert Items(config, [listing]) == [] + KeyItems(config, listing);
  }

  /** The versions of one key are loaded one after the other. */
  lemma KeyItemsAppend(config: Config, key: CryptoKey, a: seq<VersionReply>, b: seq<VersionReply>, failed: bool)
    ensures KeyItems(config, KeyListing(key, Stream(a + b, failed)))
         == KeyItems(config, KeyListing(key, Stream(a, failed))) + KeyItems(config, KeyListing(key, Stream(b, failed)))
  {
    VersionItemsAppend(config, key.purpose, a, b);
  }

  /** The certificate of a key pair: the user's for this public key, or else a generated one if
      certificates are to be generated, or else none. */
  predicate HasCertificate(config: Config, reply: VersionReply, der: Bytes, certificate: Option<Certificate>) {
    var x509 := if certificate.Some? then certificate.value.x509 else [];
    && (certificate.Some? ==> x509 != [])
    && (der in config.userCerts ==> x509 == config.userCerts[der])
    && (der !in config.userCerts && config.generateCerts ==> reply.generatedCert == Some(x509))
    && (der !in config.userCerts && !config.generateCerts ==> x509 == [])
  }

  /** What a refresh delivers for a version it has not met before. */
  lemma NewKeyContents(
    config: Config, keys: map<string, Key>, listing: Stream<KeyListing>, keys': map<string, Key>, out: seq<Key>, i: nat)
    requires BuildOk(config, keys, listing, keys', out) && i < |out| && IsNew(keys, Items(config, listing.items), i)
    ensures var item, key := Items(config, listing.items)[i], out[i];
            && key.version == item.reply.version
            && if item.purpose == Mac || item.purpose == RawEncryptDecrypt then
                 key.secretHandle != 0 && key.publicHandle == 0 && key.privateHandle == 0 && key.certificate == None
               else
                 && key.secretHandle == 0 && key.publicHandle != 0 && key.privateHandle != 0
                 && item.reply.publicKeyDer == Some(key.publicKeyDer)
                 && HasCertificate(config, item.reply, key.publicKeyDer, key.certificate)
  {
    assert MadeFrom(config, Items(config, listing.items)[i], out[i]);
  }

  /** KMS has answered what a new version needs: nothing for a symmetric one, and else the public key
      and, if one has to be generated, the certificate. */
  predicate AnswersSuffice(config: Config, item: Item) {
    var der := item.reply.publicKeyDer;
    || item.purpose == Mac || item.purpose == RawEncryptDecrypt
    || (der.Some? && (der.value in config.userCerts || !config.generateCerts || item.reply.generatedCert.Some?))
  }

  /** The version listing of no loadable key fails. */
  predicate ListingsComplete(listings: seq<KeyListing>) {
    forall k | 0 <= k < |listings| && KeyLoadable(listings[k].key) :: !listings[k].versions.failed
  }

  predicate NewAnswersSuffice(config: Config, keys: map<string, Key>, items: seq<Item>) {
    forall i | 0 <= i < |items| && IsNew(keys, items, i) :: AnswersSuffice(config, items[i])
  }

  /** When a refresh succeeds, written out. */
  lemma CanBuildMeans(config: Config, keys: map<string, Key>, listing: Stream<KeyListing>)
    ensures CanBuild(config, keys, listing) <==>
              !listing.failed && ListingsComplete(listing.items) && NewAnswersSuffice(config, keys, Items(config, listing.items))
  {
    var listings, items := listing.items, Items(config, listing.items);
    if CanBuild(config, keys, listing) {
      forall k | 0 <= k < |listings| && KeyLoadable(listings[k].key) ensures !listings[k].versions.failed {
        assert !ListingFails(listings[k]);
      }
      forall i | 0 <= i < |items| && IsNew(keys, items, i) ensures AnswersSuffice(config, items[i]) {
        assert Fetchable(config, items[i]);
      }
    }
    if ListingsComplete(listings) && NewAnswersSuffice(config, keys, items) {
      forall k | 0 <= k < |listings| ensures !ListingFails(listings[k]) {
      }
      forall i | 0 <= i < |items| && IsNew(keys, items, i) ensures Fetchable(config, items[i]) {
        assert AnswersSuffice(config, items[i]);
      }
    }
  }
}
