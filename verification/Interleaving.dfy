/** Several threads refreshing one token at the same time (kmsp11/token.cc, kmsp11/token.h), and
    finds that stay open meanwhile (kmsp11/session.cc, kmsp11/operation/find.h).

    BuildState runs under the loader's mutex and the swap under the writer lock, so each is one
    step; building, constructing the store and swapping it in are separate steps. */
module Interleaving {
  import opened Basics
  import opened ObjectLoader
  import opened ObjectStore
  import opened FindOp

  /** Where a thread is inside RefreshState: `build` counts the successful builds before its own. */
  datatype Phase = Idle | Constructing(build: nat) | Swapping(build: nat, store: Store)

  /** An open find: the FindOp, what it has returned so far, and what it was opened on. */
  datatype Find = Find(
    objects: seq<Handle>, offset: nat, returned: seq<Handle>, store: Store, matches: Object -> bool)

  /** `builds[k]` and `caches[k]` record what the k-th successful build returned and left cached. */
  datatype World = World(
    keys: map<string, Key>,
    inUse: set<Handle>,
    builds: seq<seq<Key>>,
    caches: seq<map<string, Key>>,
    threads: map<nat, Phase>,
    published: Store,
    source: nat,
    finds: map<nat, Find>)

  datatype Step =
    | BuildSucceeds(t: nat, listing: Stream<KeyListing>, out: seq<Key>)
    | BuildFails(t: nat, listing: Stream<KeyListing>)
    | Construct(t: nat, result: NewResult)
    | Swap(t: nat)
    | FindInit(session: nat, matches: Object -> bool, found: seq<Handle>)
    | FindNext(session: nat, max: nat)
    | FindFinal(session: nat)
    | FindReleased(session: nat)  // by a cryptographic call on the session

  /** The two build steps are what ObjectLoader.BuildState is proved to do, the ledger included. */
  ghost predicate Next(config: Config, parser: Parser, w: World, step: Step, w': World) {
    match step
    case BuildSucceeds(t, listing, out) =>
      && t in w.threads && w.threads[t].Idle?
      && BuildOk(config, w.keys, listing, w'.keys, out) && Ledger(w'.keys, w'.inUse)
      && NewHandlesFree(w.keys, w.inUse, w'.keys)
      && w' == w.(keys := w'.keys, inUse := w'.inUse, builds := w.builds + [out],
                  caches := w.caches + [w'.keys], threads := w.threads[t := Constructing(|w.builds|)])
    case BuildFails(t, listing) =>
      && t in w.threads && w.threads[t].Idle?
      && BuildFailed(config, w.keys, listing, w'.keys) && Ledger(w'.keys, w'.inUse)
      && w' == w.(keys := w'.keys, inUse := w'.inUse)
    case Construct(t, result) =>
      && t in w.threads && w.threads[t].Constructing? && w.threads[t].build < |w.builds|
      && NewYields(parser, w.builds[w.threads[t].build], result)
      && w' == w.(threads := w.threads[t := if result.Built? then Swapping(w.threads[t].build, result.store) else Idle])
    case Swap(t) =>
      && t in w.threads && w.threads[t].Swapping?
      && w' == w.(published := w.threads[t].store, source := w.threads[t].build, threads := w.threads[t := Idle])
    case FindInit(s, matches, found) =>
      && s !in w.finds && IsFound(w.published, matches, found)
      && w' == w.(finds := w.finds[s := Find(found, 0, [], w.published, matches)])
    case FindNext(s, max) =>
      && s in w.finds && w.finds[s].offset <= |w.finds[s].objects|
      && var f := w.finds[s];
      && var end := NextEnd(f.objects, f.offset, max);
      && w' == w.(finds := w.finds[s := f.(offset := end, returned := f.returned + f.objects[f.offset..end])])
    case FindFinal(s) =>
      && s in w.finds && w' == w.(finds := w.finds - {s})
    case FindReleased(s) =>
      && s in w.finds && w' == w.(finds := w.finds - {s})
  }

  ghost predicate Run(config: Config, parser: Parser, ws: seq<World>, steps: seq<Step>) {
    && |ws| == |steps| + 1
    && forall i :: 0 <= i < |steps| ==> Next(config, parser, ws[i], steps[i], ws[i + 1])
  }

  /** The token right after Token::New: one build, published. */
  ghost predicate Init(parser: Parser, w: World) {
    && |w.builds| == 1 && w.caches == [w.keys] && w.source == 0
    && Ledger(w.keys, w.inUse) && Mirrors(w.keys, w.builds[0]) && Separate(w.builds[0])
    && NewYields(parser, w.builds[0], Built(w.published))
    && (forall t :: t in w.threads ==> w.threads[t].Idle?)
    && w.finds == map[]
  }

  // ---------------------------------------------------------------------------------------
  // The invariant
  // ---------------------------------------------------------------------------------------

  /** Builds and caches match one another, and a key that is cached before and after a build
      is the same key. */
  ghost predicate HistoryOk(builds: seq<seq<Key>>, caches: seq<map<string, Key>>, keys: map<string, Key>) {
    && |caches| == |builds| > 0
    && (forall k :: 0 <= k < |builds| ==> Mirrors(caches[k], builds[k]) && Separate(builds[k]))
    && (forall k :: 0 < k < |caches| ==> Agrees(caches[k - 1], caches[k]))
    && Extends(caches[|caches| - 1], keys)
  }

  predicate Extends(keys: map<string, Key>, keys': map<string, Key>) {
    keys.Keys <= keys'.Keys && Agrees(keys, keys')
  }

  ghost predicate ThreadOk(parser: Parser, builds: seq<seq<Key>>, phase: Phase) {
    match phase
    case Idle => true
    case Constructing(b) => b < |builds|
    case Swapping(b, store) => b < |builds| && NewYields(parser, builds[b], Built(store))
  }

  ghost predicate ThreadsOk(parser: Parser, builds: seq<seq<Key>>, threads: map<nat, Phase>) {
    forall t :: t in threads ==> ThreadOk(parser, builds, threads[t])
  }

  ghost predicate FindOk(f: Find) {
    && f.offset <= |f.objects|
    && f.returned == f.objects[..f.offset]
    && IsFound(f.store, f.matches, f.objects)
  }

  ghost predicate FindsOk(finds: map<nat, Find>) {
    forall s :: s in finds ==> FindOk(finds[s])
  }

  /** What every interleaving keeps. */
  ghost predicate Inv(parser: Parser, w: World) {
    && Ledger(w.keys, w.inUse)
    && HistoryOk(w.builds, w.caches, w.keys)
    && ThreadOk(parser, w.builds, Swapping(w.source, w.published))
    && ThreadsOk(parser, w.builds, w.threads)
    && FindsOk(w.finds)
  }

  lemma BuildExtendsHistory(
    config: Config, builds: seq<seq<Key>>, caches: seq<map<string, Key>>, keys: map<string, Key>,
    listing: Stream<KeyListing>, out: seq<Key>, keys': map<string, Key>, inUse': set<Handle>)
    requires HistoryOk(builds, caches, keys)
    requires BuildOk(config, keys, listing, keys', out) && Ledger(keys', inUse')
    ensures HistoryOk(builds + [out], caches + [keys'], keys')
  {
    RefreshSeparate(config, keys, listing, keys', inUse', out);
    BuildMirrors(config, keys, listing, keys', out);
    HistoryExtends(builds, caches, keys, out, keys');
  }

  lemma HistoryExtends(
    builds: seq<seq<Key>>, caches: seq<map<string, Key>>, keys: map<string, Key>, out: seq<Key>, keys': map<string, Key>)
    requires HistoryOk(builds, caches, keys) && Mirrors(keys', out) && Separate(out) && Agrees(keys, keys')
    ensures HistoryOk(builds + [out], caches + [keys'], keys')
  {
    var builds', caches' := builds + [out], caches + [keys'];
    forall k | 0 <= k < |builds'| ensures Mirrors(caches'[k], builds'[k]) && Separate(builds'[k]) {
    }
    forall k | 0 < k < |caches'| ensures Agrees(caches'[k - 1], caches'[k]) {
    }
  }

  lemma FailureExtendsHistory(
    config: Config, builds: seq<seq<Key>>, caches: seq<map<string, Key>>, keys: map<string, Key>,
    listing: Stream<KeyListing>, keys': map<string, Key>)
    requires HistoryOk(builds, caches, keys) && BuildFailed(config, keys, listing, keys')
    ensures HistoryOk(builds, caches, keys')
  {
  }

  lemma FindNextOk(f: Find, max: nat)
    requires FindOk(f)
    ensures var end := NextEnd(f.objects, f.offset, max);
            FindOk(f.(offset := end, returned := f.returned + f.objects[f.offset..end]))
  {
  }

  lemma NextKeepsInv(config: Config, parser: Parser, w: World, step: Step, w': World)
    requires Inv(parser, w) && Next(config, parser, w, step, w')
    ensures Inv(parser, w')
  {
    match step
    case BuildSucceeds(t, listing, out) =>
      BuildExtendsHistory(config, w.builds, w.caches, w.keys, listing, out, w'.keys, w'.inUse);
    case BuildFails(t, listing) =>
      FailureExtendsHistory(config, w.builds, w.caches, w.keys, listing, w'.keys);
    case Construct(t, result) =>
    case Swap(t) =>
    case FindInit(s, matches, found) =>
    case FindNext(s, max) =>
      FindNextOk(w.finds[s], max);
    case FindFinal(s) =>
    case FindReleased(s) =>
  }

  /** A store built from what a refresh delivered has no two objects of one name and class. */
  lemma BuiltUnique(parser: Parser, keys: map<string, Key>, state: seq<Key>, store: Store)
    requires Mirrors(keys, state) && Separate(state) && NewYields(parser, state, Built(store))
    ensures UniqueObjects(store)
  {
    forall i, j | 0 <= i < j < |state| ensures state[i].version.name != state[j].version.name {
      if state[i].version.name == state[j].version.name {
        RepeatedKeyCollides(parser, state, i, j);
      }
    }
    DistinctEntries(parser, state);
    MapsUnique(store, Entries(parser, state).value);
  }

  /** In every world of every run the published store is the whole store of one successful
      build, without ties in its search order, the handle ledger holds, and every open find is a
      prefix of its result. */
  lemma {:induction false} RunKeepsInv(config: Config, parser: Parser, ws: seq<World>, steps: seq<Step>, i: nat)
    requires Run(config, parser, ws, steps) && Init(parser, ws[0]) && i < |ws|
    ensures Inv(parser, ws[i]) && UniqueObjects(ws[i].published)
  {
    if i == 0 {
      assert ThreadOk(parser, ws[0].builds, Swapping(0, ws[0].published));
    } else {
      RunKeepsInv(config, parser, ws, steps, i - 1);
      NextKeepsInv(config, parser, ws[i - 1], steps[i - 1], ws[i]);
    }
    PublishedUnique(parser, ws[i]);
  }

  lemma PublishedUnique(parser: Parser, w: World)
    requires Inv(parser, w)
    ensures UniqueObjects(w.published)
  {
    BuiltUnique(parser, w.caches[w.source], w.builds[w.source], w.published);
  }

  /** Until the next swap what is published stays as it is, whatever is built, fails or is found. */
  lemma {:induction false} PublishedUntilSwap(config: Config, parser: Parser, ws: seq<World>, steps: seq<Step>, a: nat, b: nat)
    requires Run(config, parser, ws, steps) && a <= b < |ws| && forall k | a <= k < b :: !steps[k].Swap?
    ensures ws[b].published == ws[a].published && ws[b].source == ws[a].source
  {
    if a < b {
      PublishedUntilSwap(config, parser, ws, steps, a, b - 1);
      OnlySwapPublishes(config, parser, ws[b - 1], steps[b - 1], ws[b]);
    }
  }

  // ---------------------------------------------------------------------------------------
  // Open finds
  // ---------------------------------------------------------------------------------------

  /** Handles asked for by the FindNext calls of `session` among steps a+1 .. b-1. */
  function Requested(steps: seq<Step>, session: nat, a: nat, b: nat): nat
    requires b <= |steps|
  {
    if b <= a + 1 then 0
    else
      Requested(steps, session, a, b - 1) +
      if steps[b - 1].FindNext? && steps[b - 1].session == session then steps[b - 1].max else 0
  }

  /** The find after `n` handles have been asked for in all. */
  predicate Advanced(f: Find, found: seq<Handle>, n: nat) {
    && f.objects == found
    && f.offset == (if n <= |found| then n else |found|)
    && f.returned == found[..f.offset]
  }

  predicate Closes(step: Step, session: nat) { step == FindFinal(session) || step == FindReleased(session) }

  lemma AdvanceFind(
    config: Config, parser: Parser, w: World, step: Step, w': World, session: nat, found: seq<Handle>, n: nat)
    requires Next(config, parser, w, step, w') && !Closes(step, session)
    requires session in w.finds && Advanced(w.finds[session], found, n)
    ensures session in w'.finds
    ensures Advanced(w'.finds[session], found,
                     n + if step.FindNext? && step.session == session then step.max else 0)
  {
  }

  /** A find opened at step a returns the handles that matched at that moment, in order and
      each once, whatever is published meanwhile and however the caller slices its requests. */
  lemma {:induction false} OpenFindIsStable(
    config: Config, parser: Parser, ws: seq<World>, steps: seq<Step>, a: nat, b: nat)
    requires Run(config, parser, ws, steps) && a < b <= |steps| && steps[a].FindInit?
    requires forall k :: a < k < b ==> !Closes(steps[k], steps[a].session)
    ensures IsFound(ws[a].published, steps[a].matches, steps[a].found)
    ensures steps[a].session in ws[b].finds
    ensures Advanced(ws[b].finds[steps[a].session], steps[a].found, Requested(steps, steps[a].session, a, b))
  {
    assert Next(config, parser, ws[a], steps[a], ws[a + 1]);
    if b > a + 1 {
      var s := steps[a].session;
      OpenFindIsStable(config, parser, ws, steps, a, b - 1);
      AdvanceFind(config, parser, ws[b - 1], steps[b - 1], ws[b], s, steps[a].found, Requested(steps, s, a, b - 1));
    }
  }

  // ---------------------------------------------------------------------------------------
  // What a handle means across refreshes
  // ---------------------------------------------------------------------------------------

  lemma {:induction false} CachedKeyKept(builds: seq<seq<Key>>, caches: seq<map<string, Key>>, keys: map<string, Key>, p: nat, q: nat, name: string)
    requires HistoryOk(builds, caches, keys) && p <= q < |caches|
    requires forall k :: p <= k <= q ==> name in caches[k]
    ensures caches[p][name] == caches[q][name]
  {
    if p < q {
      CachedKeyKept(builds, caches, keys, p, q - 1, name);
      assert Agrees(caches[q - 1], caches[q]);
    }
  }

  /** If a version is in every successful build between two stores, then each of its handles
      denotes the very same object in both, in whichever order the two were published. */
  lemma HandleKeepsMeaning(
    parser: Parser, w: World, p: nat, q: nat, name: string, storeP: Store, storeQ: Store, h: Handle)
    requires Inv(parser, w) && p < |w.builds| && q < |w.builds|
    requires NewYields(parser, w.builds[p], Built(storeP)) && NewYields(parser, w.builds[q], Built(storeQ))
    requires forall k :: (p <= k <= q || q <= k <= p) ==> name in StateNames(w.builds[k])
    requires h in storeP && storeP[h].name == name
    ensures h in storeQ && storeQ[h] == storeP[h]
  {
    var es := Entries(parser, w.builds[p]).value;
    var k :| 0 <= k < |es| && es[k].handle == h;
    var i := EntryOrigin(parser, w.builds[p], k);
    if p <= q {
      CachedKeyKept(w.builds, w.caches, w.keys, p, q, name);
    } else {
      CachedKeyKept(w.builds, w.caches, w.keys, q, p, name);
    }
    var j :| 0 <= j < |w.builds[q]| && w.builds[q][j].version.name == name;
    assert w.builds[q][j] == w.builds[p][i];
    EntryShown(parser, w.builds[q], storeQ, j, es[k]);
  }

  // ---------------------------------------------------------------------------------------
  // Publication order
  // ---------------------------------------------------------------------------------------

  lemma OnlySwapPublishes(config: Config, parser: Parser, w: World, step: Step, w': World)
    requires Next(config, parser, w, step, w')
    ensures !step.Swap? ==> w'.published == w.published && w'.source == w.source
    ensures w'.source < w.source <==> step.Swap? && w.threads[step.t].build < w.source
  {
  }

  predicate OneRefresher(w: World) {
    forall t, u :: t in w.threads && u in w.threads && !w.threads[t].Idle? && !w.threads[u].Idle? ==> t == u
  }

  predicate Ahead(w: World) {
    forall t :: t in w.threads && !w.threads[t].Idle? ==> w.source < w.threads[t].build
  }

  /** While refreshes do not overlap, what is published only gets newer. */
  lemma {:induction false} NonOverlappingRefreshesAdvance(
    config: Config, parser: Parser, ws: seq<World>, steps: seq<Step>, i: nat)
    requires Run(config, parser, ws, steps) && Init(parser, ws[0]) && i < |ws|
    requires forall k :: 0 <= k < |ws| ==> OneRefresher(ws[k])
    ensures Ahead(ws[i])
    ensures forall k :: 0 <= k < i ==> ws[k].source <= ws[k + 1].source
  {
    if i > 0 {
      NonOverlappingRefreshesAdvance(config, parser, ws, steps, i - 1);
      assert Next(config, parser, ws[i - 1], steps[i - 1], ws[i]);
      assert OneRefresher(ws[i - 1]);
      RunKeepsInv(config, parser, ws, steps, i - 1);
    }
  }
}
