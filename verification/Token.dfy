/** kmsp11/token.cc: refreshing the published object store again and again, one refresh after the
    other. */
module Token {
  import opened Basics
  import opened ObjectLoader
  import opened ObjectStore

  // ---------------------------------------------------------------------------------------
  // Runs of BuildState calls
  // ---------------------------------------------------------------------------------------

  /** One call of BuildState: what KMS answered, and the result. */
  datatype Refresh = Refresh(listing: Stream<KeyListing>, result: Option<seq<Key>>)

  predicate Lists(config: Config, refresh: Refresh, name: string) {
    name in Names(Items(config, refresh.listing.items))
  }

  ghost predicate RefreshStep(config: Config, keys: map<string, Key>, refresh: Refresh, keys': map<string, Key>) {
    match refresh.result
    case Some(out) => BuildOk(config, keys, refresh.listing, keys', out)
    case None => BuildFailed(config, keys, refresh.listing, keys')
  }

  ghost predicate Run(config: Config, caches: seq<map<string, Key>>, refreshes: seq<Refresh>) {
    && |caches| == |refreshes| + 1
    && forall i :: 0 <= i < |refreshes| ==> RefreshStep(config, caches[i], refreshes[i], caches[i + 1])
  }

  /** From cache `a` to cache `b`, every successful refresh lists `name`. */
  predicate ListedThroughout(config: Config, refreshes: seq<Refresh>, a: nat, b: nat, name: string) {
    forall i :: a <= i < b && i < |refreshes| && refreshes[i].result.Some? ==> Lists(config, refreshes[i], name)
  }

  /** A cached version keeps its key, handles included, for exactly as long as every successful
      refresh lists it; failed refreshes never take it away. */
  lemma {:induction false} HandleStability(
    config: Config, caches: seq<map<string, Key>>, refreshes: seq<Refresh>, a: nat, b: nat, name: string)
    requires Run(config, caches, refreshes) && a <= b < |caches| && name in caches[a]
    ensures ListedThroughout(config, refreshes, a, b, name)
       <==> (forall i :: a <= i <= b ==> name in caches[i])
    ensures ListedThroughout(config, refreshes, a, b, name) ==> caches[b][name] == caches[a][name]
  {
    if a < b {
      HandleStability(config, caches, refreshes, a, b - 1, name);
      if ListedThroughout(config, refreshes, a, b - 1, name) {
        StableStep(config, caches[b - 1], refreshes[b - 1], caches[b], name);
      }
    }
  }

  /** One refresh: a cached version stays cached if and only if the refresh fails or lists it. */
  lemma StableStep(config: Config, keys: map<string, Key>, refresh: Refresh, keys': map<string, Key>, name: string)
    requires RefreshStep(config, keys, refresh, keys') && name in keys
    ensures name in keys' <==> (refresh.result.Some? ==> Lists(config, refresh, name))
    ensures name in keys' ==> keys'[name] == keys[name]
  {
  }

  /** Algorithm and purpose of a version never change from listing to listing. */
  datatype Facts = Facts(algorithm: string -> Algorithm, symmetric: string -> bool)

  predicate Faithful(config: Config, facts: Facts, refresh: Refresh) {
    var items := Items(config, refresh.listing.items);
    forall i :: 0 <= i < |items| ==>
      && items[i].reply.version.algorithm == facts.algorithm(items[i].Name())
      && items[i].Symmetric() == facts.symmetric(items[i].Name())
  }

  /** Every cached key is what the loader would store for its version today. */
  predicate Current(facts: Facts, keys: map<string, Key>) {
    forall n :: n in keys ==>
      && keys[n].version == Version(n, Enabled, facts.algorithm(n))
      && (keys[n].secretHandle != 0) == facts.symmetric(n)
  }

  lemma {:induction false} VersionItemsEnabled(config: Config, purpose: Purpose, replies: seq<VersionReply>)
    ensures forall i :: 0 <= i < |VersionItems(config, purpose, replies)| ==>
              VersionItems(config, purpose, replies)[i].reply.version.state == Enabled
  {
    if replies != [] {
      VersionItemsEnabled(config, purpose, replies[..|replies| - 1]);
    }
  }

  lemma {:induction false} ItemsEnabled(config: Config, listings: seq<KeyListing>)
    ensures forall i :: 0 <= i < |Items(config, listings)| ==>
              Items(config, listings)[i].reply.version.state == Enabled
  {
    if listings != [] {
      var last := listings[|listings| - 1];
      ItemsEnabled(config, listings[..|listings| - 1]);
      VersionItemsEnabled(config, last.key.purpose, last.versions.items);
    }
  }

  lemma CurrentKept(config: Config, facts: Facts, keys: map<string, Key>, refresh: Refresh, keys': map<string, Key>)
    requires RefreshStep(config, keys, refresh, keys') && Faithful(config, facts, refresh) && Current(facts, keys)
    ensures Current(facts, keys')
  {
    var items := Items(config, refresh.listing.items);
    ItemsEnabled(config, refresh.listing.items);
    if refresh.result.Some? {
      DeliveredCurrent(config, facts, keys, items, keys', refresh.result.value);
    } else {
      var done, out :| done <= items && Absorbed(config, keys, done, keys', out);
      assert forall i :: 0 <= i < |done| ==> done[i] == items[i];
      DeliveredCurrent(config, facts, keys, done, keys', out);
    }
  }

  predicate ItemsFaithful(facts: Facts, items: seq<Item>) {
    forall i :: 0 <= i < |items| ==>
      && items[i].reply.version == Version(items[i].Name(), Enabled, facts.algorithm(items[i].Name()))
      && items[i].Symmetric() == facts.symmetric(items[i].Name())
  }

  lemma DeliveredCurrent(
    config: Config, facts: Facts, keys: map<string, Key>, items: seq<Item>, keys': map<string, Key>, out: seq<Key>)
    requires Current(facts, keys) && ItemsFaithful(facts, items)
    requires Delivered(config, keys, items, keys', out) && Agrees(keys, keys')
    requires keys'.Keys <= keys.Keys + Names(items)
    ensures Current(facts, keys')
  {
    forall n | n in keys'
      ensures keys'[n].version == Version(n, Enabled, facts.algorithm(n))
      ensures (keys'[n].secretHandle != 0) == facts.symmetric(n)
    {
      if n !in keys {
        var i :| 0 <= i < |items| && items[i].Name() == n;
        var f := FirstOccurrence(items, i);
        assert IsNew(keys, items, f);
      }
    }
  }

  lemma {:induction false} FirstOccurrence(items: seq<Item>, i: nat) returns (f: nat)
    requires i < |items|
    ensures f <= i && items[f].Name() == items[i].Name()
    ensures forall j :: 0 <= j < f ==> items[j].Name() != items[f].Name()
  {
    if j: nat :| j < i && items[j].Name() == items[i].Name() {
      f := FirstOccurrence(items, j);
    } else {
      f := i;
    }
  }

  /** `out` is the plain filter of a listing, version for version and in order. */
  predicate PlainFilter(items: seq<Item>, out: seq<Key>) {
    && |out| == |items|
    && forall k :: 0 <= k < |items| ==>
         && out[k].version == items[k].reply.version
         && (out[k].secretHandle != 0) == items[k].Symmetric()
  }

  lemma TransparentStep(
    config: Config, facts: Facts, keys: map<string, Key>, listing: Stream<KeyListing>,
    keys': map<string, Key>, out: seq<Key>)
    requires BuildOk(config, keys, listing, keys', out) && Current(facts, keys')
    requires Faithful(config, facts, Refresh(listing, Some(out)))
    ensures PlainFilter(Items(config, listing.items), out) && Mirrors(keys', out)
  {
    ItemsEnabled(config, listing.items);
    BuildMirrors(config, keys, listing, keys', out);
  }

  /** Cache transparency: after any run from an empty cache, a successful refresh returns the
      plain filter of its listing and leaves the cache equal to that result. */
  lemma {:induction false} CacheTransparency(
    config: Config, facts: Facts, caches: seq<map<string, Key>>, refreshes: seq<Refresh>, i: nat)
    requires Run(config, caches, refreshes) && caches[0] == map[]
    requires forall k :: 0 <= k < |refreshes| ==> Faithful(config, facts, refreshes[k])
    requires i < |refreshes|
    ensures Current(facts, caches[i + 1])
    ensures refreshes[i].result.Some? ==>
              && PlainFilter(Items(config, refreshes[i].listing.items), refreshes[i].result.value)
              && Mirrors(caches[i + 1], refreshes[i].result.value)
  {
    if i > 0 {
      CacheTransparency(config, facts, caches, refreshes, i - 1);
    }
    assert RefreshStep(config, caches[i], refreshes[i], caches[i + 1]);
    CurrentKept(config, facts, caches[i], refreshes[i], caches[i + 1]);
    if refreshes[i].result.Some? {
      TransparentStep(config, facts, caches[i], refreshes[i].listing, caches[i + 1], refreshes[i].result.value);
    }
  }

  // ---------------------------------------------------------------------------------------
  // Token::RefreshState
  // ---------------------------------------------------------------------------------------

  /** `store` is the whole store of one successful build of `listing`. */
  ghost predicate StoreOfBuild(
    config: Config, parser: Parser, keys: map<string, Key>, listing: Stream<KeyListing>,
    keys': map<string, Key>, store: Store)
  {
    exists out :: BuildOk(config, keys, listing, keys', out) && NewYields(parser, out, Built(store))
  }

  /** Objects can be made for item i: from its cached key, or else from what KMS answers about it. */
  predicate ItemParses(config: Config, parser: Parser, keys: map<string, Key>, item: Item) {
    if item.Name() in keys then KeyEntries(parser, keys[item.Name()]).Some?
    else if item.Symmetric() then parser.secret(item.reply.version).Some?
    else
      && Fetchable(config, item)
      && var der := item.reply.publicKeyDer.value;
      && var cert := CertFor(config, der, item.reply).value;
      && parser.pair(item.reply.version, der).Some?
      && (cert != [] ==> parser.cert(item.reply.version, cert).Some?)
  }

  /** Exactly when a refresh succeeds, from the cache and what KMS answers. */
  ghost predicate CanRefresh(config: Config, parser: Parser, keys: map<string, Key>, listing: Stream<KeyListing>) {
    var items := Items(config, listing.items);
    CanBuild(config, keys, listing) && DistinctNames(items) && AllParse(config, parser, keys, items)
  }

  predicate AllParse(config: Config, parser: Parser, keys: map<string, Key>, items: seq<Item>) {
    forall i | 0 <= i < |items| :: ItemParses(config, parser, keys, items[i])
  }

  lemma MadeParses(config: Config, parser: Parser, keys: map<string, Key>, item: Item, key: Key)
    requires item.Name() !in keys && MadeFrom(config, item, key) && WellShaped(key)
    ensures KeyEntries(parser, key).Some? <==> ItemParses(config, parser, keys, item)
  {
  }

  /** With distinct names, the delivered keys parse if and only if the items do. */
  lemma DeliveredParse(
    config: Config, parser: Parser, keys: map<string, Key>, listing: Stream<KeyListing>,
    keys': map<string, Key>, inUse': set<Handle>, out: seq<Key>)
    requires BuildOk(config, keys, listing, keys', out) && Ledger(keys', inUse')
    requires DistinctNames(Items(config, listing.items))
    ensures Entries(parser, out).Some? <==> AllParse(config, parser, keys, Items(config, listing.items))
  {
    EntriesExactly(parser, out);
    var items := Items(config, listing.items);
    if Entries(parser, out).Some? {
      forall i | 0 <= i < |items| ensures ItemParses(config, parser, keys, items[i]) {
        assert KeyEntries(parser, out[i]).Some?;
        OneParses(config, parser, keys, listing, keys', inUse', out, i);
      }
    }
    if AllParse(config, parser, keys, items) {
      forall i | 0 <= i < |out| ensures KeyEntries(parser, out[i]).Some? {
        assert ItemParses(config, parser, keys, items[i]);
        OneParses(config, parser, keys, listing, keys', inUse', out, i);
      }
    }
  }

  lemma OneParses(
    config: Config, parser: Parser, keys: map<string, Key>, listing: Stream<KeyListing>,
    keys': map<string, Key>, inUse': set<Handle>, out: seq<Key>, i: nat)
    requires BuildOk(config, keys, listing, keys', out) && Ledger(keys', inUse') && i < |out|
    requires DistinctNames(Items(config, listing.items))
    ensures KeyEntries(parser, out[i]).Some? <==> ItemParses(config, parser, keys, Items(config, listing.items)[i])
  {
    var items := Items(config, listing.items);
    if items[i].Name() !in keys {
      assert IsNew(keys, items, i);
      MadeParses(config, parser, keys, items[i], out[i]);
    }
  }

  /** A store is built from a refreshed state if and only if the names are distinct and all keys parse. */
  lemma BuiltExactly(
    config: Config, parser: Parser, keys: map<string, Key>, listing: Stream<KeyListing>,
    keys': map<string, Key>, inUse': set<Handle>, out: seq<Key>, result: NewResult)
    requires BuildOk(config, keys, listing, keys', out) && Ledger(keys', inUse') && NewYields(parser, out, result)
    ensures var items := Items(config, listing.items);
            result.Built? <==> DistinctNames(items) && AllParse(config, parser, keys, items)
  {
    if !result.InvalidState? {
      DuplicateOnlyIfListedTwice(config, parser, keys, listing, keys', inUse', out, result);
    }
    if DistinctNames(Items(config, listing.items)) {
      DeliveredParse(config, parser, keys, listing, keys', inUse', out);
    }
  }

  class Token {
    const loader: ObjectLoader
    const parser: Parser
    var objects: Store

    constructor (loader: ObjectLoader, parser: Parser, objects: Store)
      ensures this.loader == loader && this.parser == parser && this.objects == objects
    {
      this.loader, this.parser, this.objects := loader, parser, objects;
    }

    method RefreshState(listing: Stream<KeyListing>) returns (ok: bool)
      requires loader.cache.Valid()
      requires |loader.cache.inUse| + 3 * |Items(loader.config, listing.items)| < HANDLE_LIMIT
      modifies this, loader.cache
      ensures loader.cache.Valid()
      ensures ok <==> CanRefresh(loader.config, parser, old(loader.cache.keys), listing)
      ensures ok ==> StoreOfBuild(loader.config, parser, old(loader.cache.keys), listing, loader.cache.keys, objects)
      ensures !ok ==> objects == old(objects)
    {
      var state := loader.BuildState(listing);
      if state.None? {
        return false;
      }
      var store := New(parser, state.value);
      BuiltExactly(loader.config, parser, old(loader.cache.keys), listing,
                   loader.cache.keys, loader.cache.inUse, state.value, store);
      if !store.Built? {
        return false;
      }
      objects := store.store;
      ok := true;
    }
  }
}
