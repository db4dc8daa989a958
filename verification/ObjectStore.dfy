/** kmsp11/object_store.cc: from the loader's state to an immutable map of PKCS #11 objects,
    and searching that map. */
module ObjectStore {
  import opened Basics
  import opened ObjectLoader

  // PKCS #11 object classes.
  const CKO_CERTIFICATE: nat := 1
  const CKO_PUBLIC_KEY: nat := 2
  const CKO_PRIVATE_KEY: nat := 3
  const CKO_SECRET_KEY: nat := 4

  type Attributes = map<nat, Bytes>

  datatype Object = Object(name: string, cls: nat, attributes: Attributes)

  datatype Entry = Entry(handle: Handle, obj: Object)

  type Store = map<Handle, Object>

  /** Object construction: attribute building and DER parsing, each of which may fail. */
  datatype Parser = Parser(
    secret: Version -> Option<Attributes>,
    pair: (Version, Bytes) -> Option<(Attributes, Attributes)>,
    cert: (Version, Bytes) -> Option<Attributes>)

  // ---------------------------------------------------------------------------------------
  // ParseStoreEntries and ObjectStore::New
  // ---------------------------------------------------------------------------------------

  /** The entries for one key; None stands for InvalidArgument. */
  function KeyEntries(parser: Parser, key: Key): Option<seq<Entry>> {
    var name := key.version.name;
    if key.secretHandle == 0 && key.privateHandle == 0 then None
    else if key.secretHandle != 0 then
      match parser.secret(key.version)
      case None => None
      case Some(a) => Some([Entry(key.secretHandle, Object(name, CKO_SECRET_KEY, a))])
    else
      match parser.pair(key.version, key.publicKeyDer)
      case None => None
      case Some((pub, prv)) =>
        if key.publicHandle == 0 then None
        else
          var both := [Entry(key.publicHandle, Object(name, CKO_PUBLIC_KEY, pub)),
                       Entry(key.privateHandle, Object(name, CKO_PRIVATE_KEY, prv))];
          match key.certificate
          case None => Some(both)
          case Some(cert) =>
            if cert.handle == 0 then None
            else
              match parser.cert(key.version, cert.x509)
              case None => None
              case Some(a) => Some(both + [Entry(cert.handle, Object(name, CKO_CERTIFICATE, a))])
  }

  function Entries(parser: Parser, state: seq<Key>): Option<seq<Entry>> {
    if state == [] then Some([])
    else
      match Entries(parser, state[..|state| - 1])
      case None => None
      case Some(before) =>
        match KeyEntries(parser, state[|state| - 1])
        case None => None
        case Some(last) => Some(before + last)
  }

  lemma {:induction false} EntriesFailEarly(parser: Parser, state: seq<Key>, i: nat)
    requires i < |state|
    requires Entries(parser, state[..i]).None? || KeyEntries(parser, state[i]).None?
    ensures Entries(parser, state).None?
  {
    if i < |state| - 1 {
      var init := state[..|state| - 1];
      assert init[..i] == state[..i];
      EntriesFailEarly(parser, init, i);
    }
  }

  lemma {:induction false} EntriesExactly(parser: Parser, state: seq<Key>)
    ensures Entries(parser, state).Some? <==> forall i | 0 <= i < |state| :: KeyEntries(parser, state[i]).Some?
  {
    if state != [] {
      EntriesExactly(parser, state[..|state| - 1]);
    }
  }

  method ParseStoreEntries(parser: Parser, state: seq<Key>) returns (entries: Option<seq<Entry>>)
    ensures entries == Entries(parser, state)
  {
    var found: seq<Entry> := [];
    for i := 0 to |state|
      invariant Entries(parser, state[..i]) == Some(found)
    {
      var some := KeyEntries(parser, state[i]);
      assert state[..i + 1][..i] == state[..i];
      if some.None? {
        EntriesFailEarly(parser, state, i);
        return None;
      }
      found := found + some.value;
    }
    assert state[..|state|] == state;
    entries := Some(found);
  }

  predicate DistinctHandles(entries: seq<Entry>, n: nat) {
    forall i, j :: 0 <= i < j < n && j < |entries| ==> entries[i].handle != entries[j].handle
  }

  predicate HandleAmong(entries: seq<Entry>, n: nat, h: Handle) {
    exists i :: 0 <= i < n && i < |entries| && entries[i].handle == h
  }

  /** `store` maps the handles of the first `n` entries, and no others, to their objects. */
  ghost predicate Maps(store: Store, entries: seq<Entry>, n: nat) {
    && (forall h :: h in store <==> HandleAmong(entries, n, h))
    && (DistinctHandles(entries, n) ==>
          forall i :: 0 <= i < n && i < |entries| ==>
            entries[i].handle in store && store[entries[i].handle] == entries[i].obj)
  }

  datatype NewResult = Built(store: Store) | InvalidState | DuplicateHandle

  /** What ObjectStore::New returns for a state. */
  ghost predicate NewYields(parser: Parser, state: seq<Key>, result: NewResult) {
    match Entries(parser, state)
    case None => result.InvalidState?
    case Some(entries) =>
      && (result.Built? <==> DistinctHandles(entries, |entries|))
      && (result.Built? ==> Maps(result.store, entries, |entries|))
      && !result.InvalidState?
  }

  /** A store is built exactly when the state parses into entries with distinct handles, and
      it then holds those entries and nothing else. */
  method New(parser: Parser, state: seq<Key>) returns (result: NewResult)
    ensures NewYields(parser, state, result)
  {
    var parsed := ParseStoreEntries(parser, state);
    if parsed.None? {
      return InvalidState;
    }
    var entries := parsed.value;
    var store: Store := map[];
    for i := 0 to |entries|
      invariant |store| <= i && (|store| == i <==> DistinctHandles(entries, i))
      invariant Maps(store, entries, i)
    {
      InsertEntry(store, entries, i);
      if entries[i].handle !in store {
        store := store[entries[i].handle := entries[i].obj];
      }
    }
    result := if |store| != |entries| then DuplicateHandle else Built(store);
  }

  /** One insertion: a repeated handle leaves the map too small for good. */
  lemma InsertEntry(store: Store, entries: seq<Entry>, i: nat)
    requires i < |entries| && Maps(store, entries, i)
    requires |store| <= i && (|store| == i <==> DistinctHandles(entries, i))
    ensures var store' := if entries[i].handle in store then store
                          else store[entries[i].handle := entries[i].obj];
            && |store'| <= i + 1 && (|store'| == i + 1 <==> DistinctHandles(entries, i + 1))
            && Maps(store', entries, i + 1)
  {
  }

  // ---------------------------------------------------------------------------------------
  // Which handle denotes which object
  // ---------------------------------------------------------------------------------------

  predicate Shows(store: Store, h: Handle, obj: Object) { h in store && store[h] == obj }

  /** The store shows the objects of `key`, each under its own handle. */
  predicate ShowsKey(parser: Parser, store: Store, key: Key) {
    var v, name := key.version, key.version.name;
    if key.secretHandle != 0 then
      && parser.secret(v).Some?
      && Shows(store, key.secretHandle, Object(name, CKO_SECRET_KEY, parser.secret(v).value))
    else
      && parser.pair(v, key.publicKeyDer).Some?
      && Shows(store, key.publicHandle, Object(name, CKO_PUBLIC_KEY, parser.pair(v, key.publicKeyDer).value.0))
      && Shows(store, key.privateHandle, Object(name, CKO_PRIVATE_KEY, parser.pair(v, key.publicKeyDer).value.1))
      && (key.certificate.Some? ==>
            && parser.cert(v, key.certificate.value.x509).Some?
            && Shows(store, key.certificate.value.handle,
                     Object(name, CKO_CERTIFICATE, parser.cert(v, key.certificate.value.x509).value)))
  }

  /** Secret keys have their one handle; of the others, only those set count. */
  predicate HandleOf(key: Key, h: Handle) {
    if key.secretHandle != 0 then h == key.secretHandle
    else
      || h == key.publicHandle || h == key.privateHandle
      || (key.certificate.Some? && h == key.certificate.value.handle)
  }

  lemma {:induction false} EntryIndex(parser: Parser, state: seq<Key>, i: nat, e: Entry) returns (k: nat)
    requires Entries(parser, state).Some?
    requires i < |state| && KeyEntries(parser, state[i]).Some? && e in KeyEntries(parser, state[i]).value
    ensures k < |Entries(parser, state).value| && Entries(parser, state).value[k] == e
  {
    var n := |state| - 1;
    var before := Entries(parser, state[..n]).value;
    if i == n {
      var last := KeyEntries(parser, state[n]).value;
      var j :| 0 <= j < |last| && last[j] == e;
      k := |before| + j;
    } else {
      k := EntryIndex(parser, state[..n], i, e);
    }
  }

  lemma EntryShown(parser: Parser, state: seq<Key>, store: Store, i: nat, e: Entry)
    requires NewYields(parser, state, Built(store)) && i < |state|
    requires KeyEntries(parser, state[i]).Some? && e in KeyEntries(parser, state[i]).value
    ensures Shows(store, e.handle, e.obj)
  {
    var es := Entries(parser, state).value;
    var k := EntryIndex(parser, state, i, e);
    assert HandleAmong(es, |es|, e.handle);
  }

  lemma KeyShown(parser: Parser, state: seq<Key>, store: Store, i: nat)
    requires NewYields(parser, state, Built(store)) && i < |state|
    ensures ShowsKey(parser, store, state[i])
  {
    EntriesExactly(parser, state);
    var key, es := state[i], KeyEntries(parser, state[i]).value;
    forall k | 0 <= k < |es| ensures Shows(store, es[k].handle, es[k].obj) {
      EntryShown(parser, state, store, i, es[k]);
    }
    if key.secretHandle != 0 {
      assert Shows(store, es[0].handle, es[0].obj);
    } else {
      assert Shows(store, es[0].handle, es[0].obj) && Shows(store, es[1].handle, es[1].obj);
      assert key.certificate.Some? ==> Shows(store, es[2].handle, es[2].obj);
    }
  }

  lemma {:induction false} EntryOwner(parser: Parser, state: seq<Key>, k: nat) returns (i: nat)
    requires Entries(parser, state).Some? && k < |Entries(parser, state).value|
    ensures i < |state| && HandleOf(state[i], Entries(parser, state).value[k].handle)
  {
    var n := |state| - 1;
    var before := Entries(parser, state[..n]).value;
    if k < |before| {
      i := EntryOwner(parser, state[..n], k);
    } else {
      i := n;
    }
  }

  /** A built store shows every object of every key of its state under the right handle, and no
      other handles. */
  lemma StoreContents(parser: Parser, state: seq<Key>, store: Store)
    requires NewYields(parser, state, Built(store))
    ensures forall i | 0 <= i < |state| :: ShowsKey(parser, store, state[i])
    ensures forall h | h in store :: exists i | 0 <= i < |state| :: HandleOf(state[i], h)
  {
    forall i | 0 <= i < |state| ensures ShowsKey(parser, store, state[i]) {
      KeyShown(parser, state, store, i);
    }
    forall h | h in store ensures exists i | 0 <= i < |state| :: HandleOf(state[i], h) {
      var es := Entries(parser, state).value;
      var k :| 0 <= k < |es| && es[k].handle == h;
      var i := EntryOwner(parser, state, k);
    }
  }

  // ---------------------------------------------------------------------------------------
  // A refreshed state never yields duplicate handles
  // ---------------------------------------------------------------------------------------

  predicate DistinctVersions(state: seq<Key>) {
    forall i, j :: 0 <= i < j < |state| ==> state[i].version.name != state[j].version.name
  }

  /** Keys with different names share no handle, and every key is well shaped. */
  ghost predicate Separate(state: seq<Key>) {
    && (forall i :: 0 <= i < |state| ==> WellShaped(state[i]))
    && (forall i, j, h :: 0 <= i < |state| && 0 <= j < |state| && Holds(state[i], h) && Holds(state[j], h)
          ==> state[i].version.name == state[j].version.name)
  }

  lemma KeyEntriesShape(parser: Parser, key: Key)
    requires WellShaped(key) && KeyEntries(parser, key).Some?
    ensures var es := KeyEntries(parser, key).value;
            && |es| > 0
            && DistinctHandles(es, |es|)
            && (forall k :: 0 <= k < |es| ==> Holds(key, es[k].handle) && es[k].obj.name == key.version.name)
            && (forall k, l :: 0 <= k < l < |es| ==> es[k].obj.cls != es[l].obj.cls)
  {
  }

  /** Entry `e` is one of the entries of key `i`. */
  predicate From(parser: Parser, state: seq<Key>, e: Entry, i: nat) {
    && i < |state|
    && KeyEntries(parser, state[i]).Some? && e in KeyEntries(parser, state[i]).value
    && Holds(state[i], e.handle) && e.obj.name == state[i].version.name
  }

  lemma {:induction false} EntryOrigin(parser: Parser, state: seq<Key>, k: nat) returns (i: nat)
    requires Separate(state) && Entries(parser, state).Some? && k < |Entries(parser, state).value|
    ensures From(parser, state, Entries(parser, state).value[k], i)
  {
    var init, last := state[..|state| - 1], state[|state| - 1];
    var before := Entries(parser, init).value;
    KeyEntriesShape(parser, last);
    if k < |before| {
      i := EntryOrigin(parser, init, k);
    } else {
      i := |state| - 1;
    }
  }

  /** Entries made from keys with distinct version names have distinct handles and distinct
      (name, class) pairs. */
  lemma {:induction false} DistinctEntries(parser: Parser, state: seq<Key>)
    requires Separate(state) && DistinctVersions(state) && Entries(parser, state).Some?
    ensures var es := Entries(parser, state).value;
            && DistinctHandles(es, |es|)
            && (forall k, l :: 0 <= k < l < |es| ==> (es[k].obj.name, es[k].obj.cls) != (es[l].obj.name, es[l].obj.cls))
  {
    if state != [] {
      var n := |state| - 1;
      var init, last := state[..n], state[n];
      assert Separate(init);
      DistinctEntries(parser, init);
      KeyEntriesShape(parser, last);
      var before, es := Entries(parser, init).value, Entries(parser, state).value;
      forall k, l | 0 <= k < |before| <= l < |es|
        ensures es[k].handle != es[l].handle && es[k].obj.name != es[l].obj.name
      {
        var i := EntryOrigin(parser, init, k);
        assert From(parser, state, es[k], i) && From(parser, state, es[l], n);
      }
    }
  }

  /** A name listed twice makes the handles collide. */
  lemma {:induction false} EntriesInclude(parser: Parser, state: seq<Key>, i: nat) returns (k: nat)
    requires Separate(state) && Entries(parser, state).Some? && i < |state|
    ensures var es := Entries(parser, state).value;
            && Entries(parser, state[..i]).Some? && Entries(parser, state[..i]).value <= es
            && |Entries(parser, state[..i]).value| <= k < |es|
            && KeyEntries(parser, state[i]).Some? && es[k] == KeyEntries(parser, state[i]).value[0]
  {
    var n := |state| - 1;
    var init := state[..n];
    KeyEntriesShape(parser, state[n]);
    if i == n {
      k := |Entries(parser, init).value|;
    } else {
      assert init[..i] == state[..i];
      k := EntriesInclude(parser, init, i);
    }
  }

  /** What a successful refresh delivers is separate, because the ledger held. */
  lemma RefreshSeparate(
    config: Config, keys: map<string, Key>, listing: Stream<KeyListing>,
    keys': map<string, Key>, inUse': set<Handle>, out: seq<Key>)
    requires BuildOk(config, keys, listing, keys', out) && Ledger(keys', inUse')
    ensures Separate(out)
    ensures DistinctVersions(out) <==> DistinctNames(Items(config, listing.items))
  {
  }

  predicate DistinctNames(items: seq<Item>) {
    forall i, j :: 0 <= i < j < |items| ==> items[i].Name() != items[j].Name()
  }

  /** On a refreshed state that parses, ObjectStore::New reports a duplicate handle exactly
      when the listing itself named a loadable version twice. */
  lemma DuplicateOnlyIfListedTwice(
    config: Config, parser: Parser, keys: map<string, Key>, listing: Stream<KeyListing>,
    keys': map<string, Key>, inUse': set<Handle>, out: seq<Key>, result: NewResult)
    requires BuildOk(config, keys, listing, keys', out) && Ledger(keys', inUse')
    requires NewYields(parser, out, result) && !result.InvalidState?
    ensures result.DuplicateHandle? <==> !DistinctNames(Items(config, listing.items))
    ensures result.Built? ==> UniqueObjects(result.store)
  {
    var items := Items(config, listing.items);
    RefreshSeparate(config, keys, listing, keys', inUse', out);
    var es := Entries(parser, out).value;
    if DistinctNames(items) {
      DistinctEntries(parser, out);
      MapsUnique(result.store, es);
    } else {
      var i, j :| 0 <= i < j < |items| && items[i].Name() == items[j].Name();
      RepeatedKeyCollides(parser, out, i, j);
    }
  }

  lemma RepeatedKeyCollides(parser: Parser, state: seq<Key>, i: nat, j: nat)
    requires Separate(state) && Entries(parser, state).Some?
    requires i < j < |state| && state[i] == state[j]
    ensures !DistinctHandles(Entries(parser, state).value, |Entries(parser, state).value|)
  {
    var l := EntriesInclude(parser, state, j);
    var k := EntriesInclude(parser, state[..j], i);
    var es := Entries(parser, state).value;
    assert es[k] == es[l] && k < l;
  }

  /** No two objects of the store agree on name and class. */
  predicate UniqueObjects(store: Store) {
    forall g, h :: g in store && h in store && g != h ==> !SameRank(store[g], store[h])
  }

  predicate SameRank(a: Object, b: Object) { a.name == b.name && a.cls == b.cls }

  lemma MapsUnique(store: Store, es: seq<Entry>)
    requires DistinctHandles(es, |es|) && Maps(store, es, |es|)
    requires forall k, l :: 0 <= k < l < |es| ==> !SameRank(es[k].obj, es[l].obj)
    ensures UniqueObjects(store)
  {
  }

  // ---------------------------------------------------------------------------------------
  // EntryCompare is a strict total order on (name, class)
  // ---------------------------------------------------------------------------------------

  predicate NameLess(a: string, b: string) {
    if b == [] then false
    else if a == [] then true
    else a[0] < b[0] || (a[0] == b[0] && NameLess(a[1..], b[1..]))
  }

  predicate EntryLess(a: Object, b: Object) {
    if a.name == b.name then a.cls < b.cls else NameLess(a.name, b.name)
  }

  lemma {:induction false} NameOrder(a: string, b: string, c: string)
    ensures !NameLess(a, a)
    ensures NameLess(a, b) ==> !NameLess(b, a)
    ensures NameLess(a, b) || NameLess(b, a) || a == b
    ensures NameLess(a, b) && NameLess(b, c) ==> NameLess(a, c)
  {
    if a != [] && b != [] {
      NameOrder(a[1..], b[1..], if c == [] then [] else c[1..]);
      assert a[0] == b[0] && a[1..] == b[1..] ==> a == b by {
        assert a == [a[0]] + a[1..] && b == [b[0]] + b[1..];
      }
    } else if a != [] {
      NameOrder(a[1..], [], []);
    }
  }

  /** `k` is where the two names differ first. */
  predicate DifferAt(a: string, b: string, k: nat) {
    k <= |a| && k <= |b| && a[..k] == b[..k] && if k < |a| && k < |b| then a[k] != b[k] else |a| != |b|
  }

  /** The smaller name is the one that ends first, or else has the smaller character there. */
  lemma {:induction false} NameLessMeans(a: string, b: string, k: nat)
    requires DifferAt(a, b, k)
    ensures NameLess(a, b) <==> (if k < |a| && k < |b| then a[k] < b[k] else |a| < |b|)
  {
    if k > 0 {
      assert a[0] == a[..k][0] == b[..k][0] == b[0];
      assert a[1..][..k - 1] == a[..k][1..] && b[1..][..k - 1] == b[..k][1..];
      NameLessMeans(a[1..], b[1..], k - 1);
    }
  }

  /** Objects are ordered by name, and those of one name with certificates first, then public keys,
      private keys and secret keys. */
  lemma EntryLessMeans(a: Object, b: Object)
    ensures a.name != b.name ==> (EntryLess(a, b) <==> NameLess(a.name, b.name))
    ensures a.name == b.name ==> (EntryLess(a, b) <==> a.cls < b.cls)
    ensures 0 < CKO_CERTIFICATE < CKO_PUBLIC_KEY < CKO_PRIVATE_KEY < CKO_SECRET_KEY
  {
  }

  lemma EntryOrder(a: Object, b: Object, c: Object)
    ensures !EntryLess(a, a)
    ensures EntryLess(a, b) ==> !EntryLess(b, a)
    ensures EntryLess(a, b) || EntryLess(b, a) <==> !SameRank(a, b)
    ensures EntryLess(a, b) && EntryLess(b, c) ==> EntryLess(a, c)
    ensures !EntryLess(b, a) && !EntryLess(c, b) ==> !EntryLess(c, a)
  {
    NameOrder(a.name, b.name, c.name);
    NameOrder(b.name, c.name, a.name);
    NameOrder(c.name, a.name, b.name);
    NameOrder(c.name, b.name, a.name);
  }

  // ---------------------------------------------------------------------------------------
  // ObjectStore::Find and ObjectStore::FindSingle
  // ---------------------------------------------------------------------------------------

  /** One order in which a hash map may hand out its entries. */
  ghost predicate Enumerates(order: seq<Handle>, store: Store) {
    && (forall h :: h in order <==> h in store)
    && Distinct(order)
  }

  predicate Distinct(s: seq<Handle>) {
    forall i, j :: 0 <= i < j < |s| ==> s[i] != s[j]
  }

  predicate InOrder(store: Store, s: seq<Handle>) {
    && (forall i :: 0 <= i < |s| ==> s[i] in store)
    && (forall i, j :: 0 <= i < j < |s| ==> !EntryLess(store[s[j]], store[s[i]]))
  }

  /** The handles of exactly the matching objects, each once, sorted by name and class. */
  ghost predicate IsFound(store: Store, matches: Object -> bool, found: seq<Handle>) {
    && (forall h :: h in found <==> h in store && matches(store[h]))
    && Distinct(found)
    && InOrder(store, found)
  }

  /** Insertion at the place std::sort would leave `h` in. */
  function Insert(store: Store, h: Handle, s: seq<Handle>): seq<Handle>
    requires h in store && forall i :: 0 <= i < |s| ==> s[i] in store
  {
    if s == [] then [h]
    else if EntryLess(store[h], store[s[0]]) then [h] + s
    else [s[0]] + Insert(store, h, s[1..])
  }

  lemma {:induction false} InsertSorted(store: Store, h: Handle, s: seq<Handle>)
    requires h in store && h !in s && Distinct(s) && InOrder(store, s)
    ensures var r := Insert(store, h, s);
            Distinct(r) && InOrder(store, r) && forall g :: g in r <==> g == h || g in s
  {
    if s != [] {
      var r := Insert(store, h, s);
      if EntryLess(store[h], store[s[0]]) {
        forall i | 0 <= i < |s| ensures !EntryLess(store[s[i]], store[h]) {
          EntryOrder(store[h], store[s[0]], store[s[i]]);
        }
      } else {
        InsertSorted(store, h, s[1..]);
        assert s == [s[0]] + s[1..];
        var rest := Insert(store, h, s[1..]);
        forall j | 0 <= j < |rest| ensures !EntryLess(store[rest[j]], store[s[0]]) && rest[j] != s[0] {
          assert rest[j] in rest;
          if rest[j] != h {
            var k :| 0 <= k < |s[1..]| && s[1..][k] == rest[j];
            assert s[k + 1] == rest[j];
          }
        }
      }
    }
  }

  method Find(store: Store, order: seq<Handle>, matches: Object -> bool) returns (found: seq<Handle>)
    requires Enumerates(order, store)
    ensures IsFound(store, matches, found)
  {
    var hits: seq<Handle> := [];
    for i := 0 to |order|
      invariant forall h :: h in hits <==> h in order[..i] && matches(store[h])
      invariant Distinct(hits)
    {
      assert order[i] in order;
      if matches(store[order[i]]) {
        hits := hits + [order[i]];
      }
    }
    assert order[..|order|] == order;
    found := [];
    for i := 0 to |hits|
      invariant forall h :: h in found <==> h in hits[..i]
      invariant Distinct(found) && InOrder(store, found)
    {
      assert hits[i] in hits && hits[i] !in hits[..i];
      InsertSorted(store, hits[i], found);
      found := Insert(store, hits[i], found);
    }
    assert hits[..|hits|] == hits;
  }

  /** In a store without rank ties, what Find returns does not depend on the iteration order. */
  lemma FindDeterministic(store: Store, matches: Object -> bool, a: seq<Handle>, b: seq<Handle>)
    requires UniqueObjects(store)
    requires IsFound(store, matches, a) && IsFound(store, matches, b)
    ensures a == b
  {
    SortedUnique(store, a, b);
  }

  lemma {:induction false} SortedUnique(store: Store, a: seq<Handle>, b: seq<Handle>)
    requires UniqueObjects(store) && InOrder(store, a) && InOrder(store, b)
    requires Distinct(a) && Distinct(b) && forall h :: h in a <==> h in b
    ensures a == b
  {
    FirstIn(a);
    FirstIn(b);
    if a != [] {
      assert a[0] in a && a[0] in b;
      assert b[0] in b && b[0] in a;
      var i :| 0 <= i < |a| && a[i] == b[0];
      var j :| 0 <= j < |b| && b[j] == a[0];
      EntryOrder(store[a[0]], store[b[0]], store[a[0]]);
      assert a[0] == b[0];
      assert a == [a[0]] + a[1..] && b == [b[0]] + b[1..];
      forall h ensures h in a[1..] <==> h in b[1..] {
        assert h in a[1..] <==> h in a && h != a[0];
        assert h in b[1..] <==> h in b && h != b[0];
      }
      SortedUnique(store, a[1..], b[1..]);
    }
  }

  lemma FirstIn(s: seq<Handle>)
    ensures s != [] ==> s[0] in s
  {
  }

  datatype SingleResult = Single(handle: Handle) | NotFound | MultipleMatches

  /** FindSingle answers h, NotFound or FailedPrecondition exactly when the list of all matches
      has one element h, none, or more. */
  method FindSingle(store: Store, order: seq<Handle>, matches: Object -> bool, ghost found: seq<Handle>)
    returns (result: SingleResult)
    requires Enumerates(order, store) && IsFound(store, matches, found)
    ensures result.NotFound? <==> |found| == 0
    ensures result.Single? <==> |found| == 1
    ensures result.Single? ==> found == [result.handle]
  {
    assert |found| >= 2 ==> found[0] != found[1];
    var hit: Option<Handle> := None;
    for i := 0 to |order|
      invariant hit.None? ==> forall k :: 0 <= k < i ==> !matches(store[order[k]])
      invariant hit.Some? ==> hit.value in found
      invariant forall k :: 0 <= k < i && matches(store[order[k]]) ==> hit == Some(order[k])
      invariant hit.Some? ==> exists k :: 0 <= k < i && order[k] == hit.value
    {
      assert order[i] in order;
      if matches(store[order[i]]) {
        assert order[i] in found;
        if hit.Some? {
          ghost var p :| 0 <= p < |found| && found[p] == hit.value;
          ghost var q :| 0 <= q < |found| && found[q] == order[i];
          return MultipleMatches;
        }
        hit := Some(order[i]);
      }
    }
    forall h | h in found ensures hit == Some(h) {
      assert h in order;
      var k :| 0 <= k < |order| && order[k] == h;
    }
    assert forall i :: 0 <= i < |found| ==> found[i] in found && hit == Some(found[i]);
    assert |found| >= 1 ==> hit == Some(found[0]);
    result := if hit.None? then NotFound else Single(hit.value);
  }
}
