/** What overlapping refreshes of one token can do (kmsp11/token.cc): publish an older build after a
    newer one, and so publish handles that the loader has given back. */
module RefreshOrder {
  import opened Basics
  import opened ObjectLoader
  import opened ObjectStore
  import opened Interleaving

  // ---------------------------------------------------------------------------------------
  // When what is published can get older
  // ---------------------------------------------------------------------------------------

  /** Thread t is in the middle of a refresh whose store can be constructed. */
  ghost predicate Ready(parser: Parser, w: World, t: nat) {
    && t in w.threads && !w.threads[t].Idle? && w.threads[t].build < |w.builds|
    && exists store :: NewYields(parser, w.builds[w.threads[t].build], Built(store))
  }

  /** Only refreshes that are under way go on. */
  predicate Closing(steps: seq<Step>) { forall k | 0 <= k < |steps| :: steps[k].Construct? || steps[k].Swap? }

  predicate Falls(ws: seq<World>, k: nat) { k + 1 < |ws| && ws[k + 1].source < ws[k].source }

  ghost predicate RunsTo(config: Config, parser: Parser, w: World, ws: seq<World>, steps: seq<Step>) {
    Run(config, parser, ws, steps) && ws[0] == w && Closing(steps)
  }

  /** Going on with the refreshes under way can publish something older than was published. */
  ghost predicate CanFall(config: Config, parser: Parser, w: World) {
    exists ws, steps, k :: RunsTo(config, parser, w, ws, steps) && Falls(ws, k)
  }

  /** Some refresh under way is older than what is published, or than another one under way. */
  ghost predicate Overtaken(parser: Parser, w: World) {
    exists t :: Ready(parser, w, t) && (|| w.threads[t].build < w.source
                                        || exists u :: Ready(parser, w, u) && w.threads[t].build < w.threads[u].build)
  }

  /** Thread t has swapped in its build, and nothing else happened. */
  ghost predicate Finished(w: World, t: nat, w': World)
    requires t in w.threads && !w.threads[t].Idle?
  {
    w'.source == w.threads[t].build && w'.threads == w.threads[t := Idle] && w'.builds == w.builds
  }

  lemma SwapNow(config: Config, parser: Parser, w: World, t: nat) returns (w': World)
    requires t in w.threads && w.threads[t].Swapping?
    ensures Next(config, parser, w, Swap(t), w') && Finished(w, t, w')
    ensures w' == w.(published := w.threads[t].store, source := w.threads[t].build, threads := w.threads[t := Idle])
  {
    w' := w.(published := w.threads[t].store, source := w.threads[t].build, threads := w.threads[t := Idle]);
  }

  lemma ConstructNow(config: Config, parser: Parser, w: World, t: nat, store: Store) returns (w': World)
    requires t in w.threads && w.threads[t].Constructing? && w.threads[t].build < |w.builds|
    requires NewYields(parser, w.builds[w.threads[t].build], Built(store))
    ensures Next(config, parser, w, Construct(t, Built(store)), w')
    ensures w' == w.(threads := w.threads[t := Swapping(w.threads[t].build, store)])
  {
    w' := w.(threads := w.threads[t := Swapping(w.threads[t].build, store)]);
  }

  /** A ready thread can finish. */
  lemma Finish(config: Config, parser: Parser, w: World, t: nat) returns (ws: seq<World>, steps: seq<Step>)
    requires Ready(parser, w, t)
    ensures RunsTo(config, parser, w, ws, steps) && |steps| > 0
    ensures Finished(w, t, ws[|steps|]) && ws[|steps| - 1].source == w.source
  {
    if w.threads[t].Swapping? {
      var w' := SwapNow(config, parser, w, t);
      ws, steps := [w, w'], [Swap(t)];
    } else {
      var store :| NewYields(parser, w.builds[w.threads[t].build], Built(store));
      var mid := ConstructNow(config, parser, w, t, store);
      var w' := SwapNow(config, parser, mid, t);
      ws, steps := [w, mid, w'], [Construct(t, Built(store)), Swap(t)];
    }
  }

  lemma Join(config: Config, parser: Parser, w: World, ws: seq<World>, steps: seq<Step>, ws': seq<World>, steps': seq<Step>)
    requires RunsTo(config, parser, w, ws, steps) && RunsTo(config, parser, ws[|steps|], ws', steps')
    ensures RunsTo(config, parser, w, ws + ws'[1..], steps + steps')
  {
    var all, more := ws + ws'[1..], steps + steps';
    forall k | 0 <= k < |more| ensures Next(config, parser, all[k], more[k], all[k + 1]) {
      if k >= |steps| {
        assert all[k] == ws'[k - |steps|] && all[k + 1] == ws'[k + 1 - |steps|];
        assert Next(config, parser, ws'[k - |steps|], steps'[k - |steps|], ws'[k + 1 - |steps|]);
      }
    }
  }

  lemma FallsAtOnce(config: Config, parser: Parser, w: World, t: nat)
    requires Ready(parser, w, t) && w.threads[t].build < w.source
    ensures CanFall(config, parser, w)
  {
    var ws, steps := Finish(config, parser, w, t);
    assert Falls(ws, |steps| - 1);
  }

  lemma FallsAfter(config: Config, parser: Parser, w: World, t: nat, u: nat)
    requires Ready(parser, w, t) && Ready(parser, w, u) && w.threads[t].build < w.threads[u].build
    ensures CanFall(config, parser, w)
  {
    var ws, steps := Finish(config, parser, w, u);
    var w' := ws[|steps|];
    assert Ready(parser, w', t);
    FallsAtOnce(config, parser, w', t);
    var ws', steps', k :| RunsTo(config, parser, w', ws', steps') && Falls(ws', k);
    Join(config, parser, w, ws, steps, ws', steps');
    FallsLater(ws, ws', k);
  }

  lemma FallsLater(ws: seq<World>, ws': seq<World>, k: nat)
    requires ws != [] && ws' != [] && ws[|ws| - 1] == ws'[0] && Falls(ws', k)
    ensures Falls(ws + ws'[1..], |ws| - 1 + k)
  {
    var all := ws + ws'[1..];
    assert all[|ws| - 1 + k] == ws'[k] && all[|ws| + k] == ws'[k + 1];
  }

  // ---------------------------------------------------------------------------------------
  // And that it cannot otherwise
  // ---------------------------------------------------------------------------------------

  /** After some closing steps from w: threads under way were so in w, with the same build; and what
      is published was so in w, or is of a thread that has finished since. */
  ghost predicate Tracks(parser: Parser, w: World, w': World) {
    && w'.builds == w.builds
    && (forall t :: t in w'.threads && !w'.threads[t].Idle? ==>
          t in w.threads && !w.threads[t].Idle? && w.threads[t].build == w'.threads[t].build)
    && (forall t :: t in w'.threads && w'.threads[t].Swapping? ==> Ready(parser, w, t))
    && (w'.source == w.source || exists u :: Ready(parser, w, u) && w.threads[u].build == w'.source)
  }

  lemma TracksSelf(parser: Parser, w: World)
    requires Inv(parser, w)
    ensures Tracks(parser, w, w)
  {
    forall t | t in w.threads && w.threads[t].Swapping? ensures Ready(parser, w, t) {
      assert ThreadOk(parser, w.builds, w.threads[t]);
    }
  }

  lemma TracksNext(config: Config, parser: Parser, w: World, w1: World, step: Step, w2: World)
    requires Tracks(parser, w, w1) && Next(config, parser, w1, step, w2) && (step.Construct? || step.Swap?)
    ensures Tracks(parser, w, w2)
  {
    if step.Construct? && step.result.Built? {
      assert NewYields(parser, w.builds[w1.threads[step.t].build], Built(step.result.store));
    }
  }

  lemma {:induction false} RunTracks(config: Config, parser: Parser, w: World, ws: seq<World>, steps: seq<Step>, k: nat)
    requires Inv(parser, w) && RunsTo(config, parser, w, ws, steps) && k < |ws|
    ensures Tracks(parser, w, ws[k])
  {
    if k == 0 {
      TracksSelf(parser, w);
    } else {
      RunTracks(config, parser, w, ws, steps, k - 1);
      TracksNext(config, parser, w, ws[k - 1], steps[k - 1], ws[k]);
    }
  }

  lemma FallMeansOvertaken(config: Config, parser: Parser, w: World, w1: World, step: Step, w2: World)
    requires Tracks(parser, w, w1) && Next(config, parser, w1, step, w2) && w2.source < w1.source
    ensures Overtaken(parser, w)
  {
    OnlySwapPublishes(config, parser, w1, step, w2);
    assert Ready(parser, w, step.t);
  }

  /** In any reachable world, going on with the refreshes under way can publish something older than
      was published before if and only if one of them is older than what is published now, or than
      another one of them, and its store can be constructed. */
  lemma FallsExactly(config: Config, parser: Parser, w: World)
    requires Inv(parser, w)
    ensures CanFall(config, parser, w) <==> Overtaken(parser, w)
  {
    if Overtaken(parser, w) {
      var t :| Ready(parser, w, t) && (|| w.threads[t].build < w.source
                                       || exists u :: Ready(parser, w, u) && w.threads[t].build < w.threads[u].build);
      if w.threads[t].build < w.source {
        FallsAtOnce(config, parser, w, t);
      } else {
        var u :| Ready(parser, w, u) && w.threads[t].build < w.threads[u].build;
        FallsAfter(config, parser, w, t, u);
      }
    }
    if CanFall(config, parser, w) {
      var ws, steps, k :| RunsTo(config, parser, w, ws, steps) && Falls(ws, k);
      RunTracks(config, parser, w, ws, steps, k);
      FallMeansOvertaken(config, parser, w, ws[k], steps[k], ws[k + 1]);
    }
  }

  // ---------------------------------------------------------------------------------------
  // Whether a handle stays in use
  // ---------------------------------------------------------------------------------------

  /** The cached key of version `name` holds handle h. */
  predicate Owns(w: World, name: string, h: Handle) { name in w.keys && Holds(w.keys[name], h) }

  /** The step is no successful build, or one that lists the version. */
  predicate Lists(step: Step, name: string) { step.BuildSucceeds? ==> name in StateNames(step.out) }

  lemma BuildDecides(config: Config, parser: Parser, w: World, step: Step, w': World, name: string, h: Handle)
    requires Inv(parser, w) && Next(config, parser, w, step, w') && step.BuildSucceeds? && Owns(w, name, h)
    ensures if Lists(step, name) then Owns(w', name, h) else h !in w'.inUse
  {
    BuildMirrors(config, w.keys, step.listing, w'.keys, step.out);
    assert Held(w.keys, h);
  }

  lemma OthersKeep(config: Config, parser: Parser, w: World, step: Step, w': World, name: string, h: Handle)
    requires Next(config, parser, w, step, w') && !step.BuildSucceeds? && Owns(w, name, h)
    ensures Owns(w', name, h)
  {
    if step.BuildFails? {
      var done, out :| done <= Items(config, step.listing.items) && Absorbed(config, w.keys, done, w'.keys, out);
    }
  }

  /** One step of a run: the handle stays in use if and only if the step lists the version. */
  lemma StepDecides(config: Config, parser: Parser, ws: seq<World>, steps: seq<Step>, k: nat, name: string, h: Handle)
    requires Run(config, parser, ws, steps) && Init(parser, ws[0]) && k < |steps| && Owns(ws[k], name, h)
    ensures h in ws[k].inUse && (h in ws[k + 1].inUse <==> Lists(steps[k], name))
    ensures Lists(steps[k], name) ==> Owns(ws[k + 1], name, h)
  {
    RunKeepsInv(config, parser, ws, steps, k);
    RunKeepsInv(config, parser, ws, steps, k + 1);
    assert Held(ws[k].keys, h);
    if steps[k].BuildSucceeds? {
      BuildDecides(config, parser, ws[k], steps[k], ws[k + 1], name, h);
    } else {
      OthersKeep(config, parser, ws[k], steps[k], ws[k + 1], name, h);
    }
    if Lists(steps[k], name) {
      assert Held(ws[k + 1].keys, h);
    }
  }

  lemma OwnedInUse(config: Config, parser: Parser, ws: seq<World>, steps: seq<Step>, a: nat, name: string, h: Handle)
    requires Run(config, parser, ws, steps) && Init(parser, ws[0]) && a < |ws| && Owns(ws[a], name, h)
    ensures h in ws[a].inUse
  {
    RunKeepsInv(config, parser, ws, steps, a);
    assert Held(ws[a].keys, h);
  }

  predicate InUseThroughout(ws: seq<World>, a: nat, b: nat, h: Handle) {
    forall i | a <= i <= b && i < |ws| :: h in ws[i].inUse
  }

  predicate AllList(steps: seq<Step>, a: nat, b: nat, name: string) {
    forall k | a <= k < b && k < |steps| :: Lists(steps[k], name)
  }

  /** What every step of a run does to a handle that the version owns. */
  predicate StepRule(ws: seq<World>, steps: seq<Step>, k: nat, name: string, h: Handle)
    requires |ws| == |steps| + 1 && k < |steps|
  {
    Owns(ws[k], name, h) ==>
      && h in ws[k].inUse && (h in ws[k + 1].inUse <==> Lists(steps[k], name))
      && (Lists(steps[k], name) ==> Owns(ws[k + 1], name, h))
  }

  predicate UseRule(ws: seq<World>, steps: seq<Step>, name: string, h: Handle) {
    && |ws| == |steps| + 1
    && (forall i | 0 <= i < |ws| && Owns(ws[i], name, h) :: h in ws[i].inUse)
    && (forall k | 0 <= k < |steps| :: StepRule(ws, steps, k, name, h))
  }

  lemma RunUseRule(config: Config, parser: Parser, ws: seq<World>, steps: seq<Step>, name: string, h: Handle)
    requires Run(config, parser, ws, steps) && Init(parser, ws[0])
    ensures UseRule(ws, steps, name, h)
  {
    forall i | 0 <= i < |ws| && Owns(ws[i], name, h) ensures h in ws[i].inUse {
      OwnedInUse(config, parser, ws, steps, i, name, h);
    }
    forall k | 0 <= k < |steps| ensures StepRule(ws, steps, k, name, h) {
      if Owns(ws[k], name, h) {
        StepDecides(config, parser, ws, steps, k, name, h);
      }
    }
  }

  lemma {:induction false} InUseByRule(ws: seq<World>, steps: seq<Step>, a: nat, b: nat, name: string, h: Handle)
    requires UseRule(ws, steps, name, h) && a <= b < |ws| && Owns(ws[a], name, h)
    ensures InUseThroughout(ws, a, b, h) <==> AllList(steps, a, b, name)
    ensures AllList(steps, a, b, name) ==> Owns(ws[b], name, h)
    decreases b
  {
    if a < b {
      InUseByRule(ws, steps, a, b - 1, name, h);
      assert StepRule(ws, steps, b - 1, name, h);
    }
  }

  /** Over any run, a handle stays in use for the version that owns it if and only if every successful
      build lists that version: the first that does not sets it free. */
  lemma InUseExactly(
    config: Config, parser: Parser, ws: seq<World>, steps: seq<Step>, a: nat, b: nat, name: string, h: Handle)
    requires Run(config, parser, ws, steps) && Init(parser, ws[0]) && a <= b < |ws| && Owns(ws[a], name, h)
    ensures InUseThroughout(ws, a, b, h) <==> AllList(steps, a, b, name)
    ensures AllList(steps, a, b, name) ==> Owns(ws[b], name, h)
  {
    RunUseRule(config, parser, ws, steps, name, h);
    InUseByRule(ws, steps, a, b, name, h);
  }

  // ---------------------------------------------------------------------------------------
  // Published handles
  // ---------------------------------------------------------------------------------------

  lemma BuildsGrow(config: Config, parser: Parser, ws: seq<World>, steps: seq<Step>, a: nat, b: nat)
    requires Run(config, parser, ws, steps) && a <= b < |ws|
    ensures ws[a].builds <= ws[b].builds
  {
    var history := seq(|ws|, k requires 0 <= k < |ws| => ws[k].builds);
    forall k | 0 <= k < |ws| - 1 ensures history[k] <= history[k + 1] {
      BuildsStep(config, parser, ws, steps, k);
    }
    PrefixChain(history, a, b);
  }

  lemma BuildsStep(config: Config, parser: Parser, ws: seq<World>, steps: seq<Step>, k: nat)
    requires Run(config, parser, ws, steps) && k < |steps|
    ensures ws[k].builds <= ws[k + 1].builds
  {
    assert Next(config, parser, ws[k], steps[k], ws[k + 1]);
  }

  lemma {:induction false} PrefixChain<T>(history: seq<seq<T>>, a: nat, b: nat)
    requires a <= b < |history| && forall k | 0 <= k < |history| - 1 :: history[k] <= history[k + 1]
    ensures history[a] <= history[b]
  {
    if a < b {
      PrefixChain(history, a, b - 1);
      assert history[b - 1] <= history[(b - 1) + 1];
    }
  }

  /** World a is the one right after build number `build`. */
  predicate RightAfter(ws: seq<World>, steps: seq<Step>, a: nat, build: nat) {
    a < |ws| && |ws[a].builds| == build + 1 && (a == 0 || (a <= |steps| && steps[a - 1].BuildSucceeds?))
  }

  /** Right after a build the cache is what the build left. */
  lemma CacheThen(config: Config, parser: Parser, ws: seq<World>, steps: seq<Step>, a: nat, build: nat)
    requires Run(config, parser, ws, steps) && Init(parser, ws[0]) && RightAfter(ws, steps, a, build)
    ensures Mirrors(ws[a].keys, ws[a].builds[build])
  {
    RunKeepsInv(config, parser, ws, steps, a);
    if a > 0 {
      assert Next(config, parser, ws[a - 1], steps[a - 1], ws[a]);
      RunKeepsInv(config, parser, ws, steps, a - 1);
    }
  }

  /** Right after its build, the version whose object is published under a handle owns the handle. */
  lemma PublishedOwned(parser: Parser, w: World, w': World, h: Handle)
    requires Inv(parser, w') && h in w'.published && w.builds <= w'.builds && w'.source < |w.builds|
    requires Mirrors(w.keys, w.builds[w'.source])
    ensures Owns(w, w'.published[h].name, h)
  {
    var state := w'.builds[w'.source];
    var es := Entries(parser, state).value;
    var k :| 0 <= k < |es| && es[k].handle == h;
    var i := EntryOrigin(parser, state, k);
  }

  /** A published handle has been in use ever since its build if and only if every successful build
      since then lists its version. */
  lemma PublishedInUse(config: Config, parser: Parser, ws: seq<World>, steps: seq<Step>, a: nat, b: nat, h: Handle)
    requires Run(config, parser, ws, steps) && Init(parser, ws[0]) && a <= b < |ws|
    requires RightAfter(ws, steps, a, ws[b].source) && h in ws[b].published
    ensures InUseThroughout(ws, a, b, h) <==> AllList(steps, a, b, ws[b].published[h].name)
  {
    RunKeepsInv(config, parser, ws, steps, b);
    BuildsGrow(config, parser, ws, steps, a, b);
    CacheThen(config, parser, ws, steps, a, ws[b].source);
    PublishedOwned(parser, ws[a], ws[b], h);
    InUseExactly(config, parser, ws, steps, a, b, ws[b].published[h].name, h);
  }

  // ---------------------------------------------------------------------------------------
  // A run in which all of this goes wrong
  // ---------------------------------------------------------------------------------------

  /** The listing of one MAC key with one version. */
  function Only(v: Version): Stream<KeyListing> {
    Stream([KeyListing(CryptoKey("key", Mac, Hsm), Stream([VersionReply(v, None, None)], false))], false)
  }

  const NOTHING: Stream<KeyListing> := Stream([], false)

  function SecretKey(v: Version, h: Handle): Key { Key(v, [], 0, 0, None, h) }

  lemma OnlyItem(config: Config, v: Version)
    requires VersionLoadable(config, v)
    ensures Items(config, Only(v).items) == [Item(Mac, VersionReply(v, None, None))]
  {
    var listing := Only(v).items[0];
    var replies := listing.versions.items;
    assert replies[..0] == [] && Only(v).items[..0] == [];
    assert VersionItems(config, Mac, []) == [] && Items(config, []) == [];
    assert VersionItems(config, Mac, replies) == [Item(Mac, replies[0])];
  }

  /** A refresh that lists one version, on an empty cache. */
  lemma BuildOnly(config: Config, parser: Parser, w: World, t: nat, v: Version, h: Handle) returns (w': World)
    requires w.keys == map[] && w.inUse == {} && t in w.threads && w.threads[t].Idle?
    requires VersionLoadable(config, v) && 0 < h < HANDLE_LIMIT
    ensures w' == w.(keys := map[v.name := SecretKey(v, h)], inUse := {h}, builds := w.builds + [[SecretKey(v, h)]],
                     caches := w.caches + [map[v.name := SecretKey(v, h)]],
                     threads := w.threads[t := Constructing(|w.builds|)])
    ensures Next(config, parser, w, BuildSucceeds(t, Only(v), [SecretKey(v, h)]), w')
  {
    OnlyItem(config, v);
    var key := SecretKey(v, h);
    var keys := map[v.name := key];
    w' := w.(keys := keys, inUse := {h}, builds := w.builds + [[key]],
             caches := w.caches + [keys], threads := w.threads[t := Constructing(|w.builds|)]);
    OneKeyLedger(v, h);
    var items := Items(config, Only(v).items);
    assert keys.Keys == Names(items) by {
      assert items[0].Name() == v.name;
    }
    assert BuildOk(config, w.keys, Only(v), keys, [key]);
  }

  lemma OneKeyLedger(v: Version, h: Handle)
    requires 0 < h < HANDLE_LIMIT
    ensures Ledger(map[v.name := SecretKey(v, h)], {h})
  {
    var keys := map[v.name := SecretKey(v, h)];
    assert v.name in keys && Holds(keys[v.name], h);
  }

  /** A refresh that lists nothing evicts everything. */
  lemma BuildNothing(config: Config, parser: Parser, w: World, t: nat) returns (w': World)
    requires t in w.threads && w.threads[t].Idle?
    ensures w' == w.(keys := map[], inUse := {}, builds := w.builds + [[]], caches := w.caches + [map[]],
                     threads := w.threads[t := Constructing(|w.builds|)])
    ensures Next(config, parser, w, BuildSucceeds(t, NOTHING, []), w')
  {
    w' := w.(keys := map[], inUse := {}, builds := w.builds + [[]], caches := w.caches + [map[]],
             threads := w.threads[t := Constructing(|w.builds|)]);
    assert BuildOk(config, w.keys, NOTHING, map[], []);
    assert Ledger(map[], {});
  }

  lemma EmptyStore(parser: Parser)
    ensures NewYields(parser, [], Built(map[]))
  {
    assert Entries(parser, []) == Some([]);
  }

  lemma OneStore(parser: Parser, v: Version, h: Handle, attributes: Attributes)
    requires h != 0 && parser.secret(v) == Some(attributes)
    ensures NewYields(parser, [SecretKey(v, h)], Built(map[h := Object(v.name, CKO_SECRET_KEY, attributes)]))
  {
    var state := [SecretKey(v, h)];
    assert state[..0] == [] && Entries(parser, []) == Some([]);
    var e := Entry(h, Object(v.name, CKO_SECRET_KEY, attributes));
    assert KeyEntries(parser, state[0]) == Some([e]);
    assert [] + [e] == [e];
    assert Entries(parser, state) == Some([e]);
    forall g ensures g == h <==> HandleAmong([e], 1, g) {
      assert [e][0].handle == h;
    }
  }

  const START := World(map[], {}, [[]], [map[]], map[0 := Idle, 1 := Idle], map[], 0, map[])

  lemma StartIsInit(parser: Parser)
    ensures Init(parser, START)
  {
    EmptyStore(parser);
    assert Ledger(map[], {});
  }

  lemma ExtendRun(config: Config, parser: Parser, ws: seq<World>, steps: seq<Step>, step: Step, w: World)
    requires Run(config, parser, ws, steps) && Next(config, parser, ws[|steps|], step, w)
    ensures Run(config, parser, ws + [w], steps + [step])
  {
  }

  /** Two refreshes under way at once, neither swapped in: the older of one version, the newer of none. */
  lemma TwoBuilds(config: Config, parser: Parser, v: Version, h: Handle, store: Store) returns (ws: seq<World>, steps: seq<Step>)
    requires VersionLoadable(config, v) && 0 < h < HANDLE_LIMIT && NewYields(parser, [SecretKey(v, h)], Built(store))
    ensures Run(config, parser, ws, steps) && |steps| == 4 && ws[0] == START
    ensures ws[4].keys == map[] && ws[4].inUse == {} && ws[4].threads == map[0 := Swapping(1, store), 1 := Swapping(2, map[])]
  {
    EmptyStore(parser);
    var w1 := BuildOnly(config, parser, START, 0, v, h);
    var w2 := BuildNothing(config, parser, w1, 1);
    var w3 := ConstructNow(config, parser, w2, 0, store);
    var w4 := ConstructNow(config, parser, w3, 1, map[]);
    ws := [START, w1, w2, w3, w4];
    steps := [BuildSucceeds(0, Only(v), [SecretKey(v, h)]), BuildSucceeds(1, NOTHING, []),
              Construct(0, Built(store)), Construct(1, Built(map[]))];
  }

  /** From a token without objects: thread 0 builds a store with one version, thread 1 builds one
      without it and swaps it in, thread 0 swaps in its own. Then an older build is published, with
      a handle that is free. The next refresh gives the handle to another version, and the published
      store still says it is the first one's. */
  lemma OlderBuildCanWin(config: Config, parser: Parser, v: Version, other: Version, attributes: Attributes, h: Handle)
    returns (ws: seq<World>, steps: seq<Step>)
    requires VersionLoadable(config, v) && VersionLoadable(config, other) && v.name != other.name
    requires parser.secret(v) == Some(attributes) && 0 < h < HANDLE_LIMIT
    ensures Run(config, parser, ws, steps) && |steps| == 7 && Init(parser, ws[0])
    ensures Falls(ws, 5) && h in ws[6].published && h !in ws[6].inUse
    ensures h in ws[7].published && ws[7].published[h].name == v.name && Owns(ws[7], other.name, h)
  {
    StartIsInit(parser);
    OneStore(parser, v, h, attributes);
    var store := map[h := Object(v.name, CKO_SECRET_KEY, attributes)];
    ws, steps := TwoBuilds(config, parser, v, h, store);
    var w5 := SwapNow(config, parser, ws[4], 1);
    ExtendRun(config, parser, ws, steps, Swap(1), w5);
    ws, steps := ws + [w5], steps + [Swap(1)];
    var w6 := SwapNow(config, parser, w5, 0);
    ExtendRun(config, parser, ws, steps, Swap(0), w6);
    ws, steps := ws + [w6], steps + [Swap(0)];
    var w7 := BuildOnly(config, parser, w6, 1, other, h);
    var step := BuildSucceeds(1, Only(other), [SecretKey(other, h)]);
    ExtendRun(config, parser, ws, steps, step, w7);
    ws, steps := ws + [w7], steps + [step];
  }
}
