/** The concurrency of fakekms: RPCs and key-generating goroutines contending for the one
    readers/writer lock. An agent works from the tree it saw on taking the lock and publishes its
    result in a later step, so that nothing is atomic but what the lock makes atomic. */
module FakeKmsLock {
  import opened Basics
  import opened ResourceNames
  import opened FakeKms

  datatype Agent = Handler(id: nat) | Generator(version: VersionName)

  datatype Mode = Shared | Exclusive

  /** The lock mode of a method: only the six methods of Rpc that change the tree are exclusive. */
  function ModeFor(rpc: Rpc): Mode { if rpc.ReadOnly? then Shared else Exclusive }

  /** What an agent holding the lock is doing: from `seen` it computes; once `done` it has published. */
  datatype Hold = Hold(mode: Mode, seen: Tree, done: bool)

  datatype Event = Served(rpc: Rpc, code: Code) | Generated(version: VersionName)

  /** `calls` are the RPCs that have arrived and not returned; `log` is what was published so far. */
  datatype World = World(tree: Tree, calls: map<nat, Rpc>, holds: map<Agent, Hold>, log: seq<Event>)

  datatype Step = Arrive(id: nat, rpc: Rpc) | Acquire(agent: Agent) | Publish(agent: Agent) | Release(agent: Agent)

  const INIT := World(Tree(map[], {}), map[], map[], [])

  /** An RPC wants the lock from its arrival on, a goroutine from its spawning by createVersion on. */
  predicate Contends(w: World, a: Agent) {
    match a
    case Handler(id) => id in w.calls
    case Generator(v) => v in w.tree.pending
  }

  function ModeOf(w: World, a: Agent): Mode
    requires Contends(w, a)
  {
    match a
    case Handler(id) => ModeFor(w.calls[id])
    case Generator(_) => Exclusive
  }

  predicate Grantable(w: World, mode: Mode) {
    match mode
    case Exclusive => w.holds == map[]
    case Shared => forall a :: a in w.holds ==> w.holds[a].mode.Shared?
  }

  /** The tree and the log entry that agent `a` publishes, having seen `seen`. */
  function Published(w: World, a: Agent, seen: Tree): (Tree, Event)
    requires a.Handler? ==> a.id in w.calls
  {
    match a
    case Handler(id) => var (tree, code) := FakeKms.Handle(seen, w.calls[id]); (tree, Served(w.calls[id], code))
    case Generator(v) => (if HasVersion(seen, v) then FinishGeneration(seen, v) else seen, Generated(v))
  }

  ghost predicate Next(w: World, s: Step, w': World) {
    match s
    case Arrive(id, rpc) => id !in w.calls && w' == w.(calls := w.calls[id := rpc])
    case Acquire(a) =>
      && a !in w.holds && Contends(w, a) && Grantable(w, ModeOf(w, a))
      && w' == w.(holds := w.holds[a := Hold(ModeOf(w, a), w.tree, false)])
    case Publish(a) =>
      && a in w.holds && !w.holds[a].done && (a.Handler? ==> a.id in w.calls)
      && var (tree, event) := Published(w, a, w.holds[a].seen);
         w' == w.(tree := tree, log := w.log + [event], holds := w.holds[a := w.holds[a].(done := true)])
    case Release(a) =>
      && a in w.holds && w.holds[a].done
      && w' == w.(holds := w.holds - {a}, calls := if a.Handler? then w.calls - {a.id} else w.calls)
  }

  ghost predicate Run(trace: seq<World>, steps: seq<Step>) {
    && |trace| == |steps| + 1 && trace[0] == INIT
    && forall i | 0 <= i < |steps| :: Next(trace[i], steps[i], trace[i + 1])
  }

  // ---------------------------------------------------------------------------------------
  // What every step keeps
  // ---------------------------------------------------------------------------------------

  /** `a` holds the lock as it should, and its view is current until it publishes. */
  ghost predicate HoldOk(w: World, a: Agent)
    requires a in w.holds
  {
    var hold := w.holds[a];
    && (a.Handler? ==> a.id in w.calls && hold.mode == ModeFor(w.calls[a.id]))
    && (a.Generator? ==> hold.mode.Exclusive? && (!hold.done ==> a.version in w.tree.pending))
    && (!hold.done ==> hold.seen == w.tree)
    && (hold.mode.Exclusive? ==> w.holds.Keys == {a})
  }

  ghost predicate HoldsOk(w: World) { forall a :: a in w.holds ==> HoldOk(w, a) }

  ghost predicate Inv(w: World) { TreeOk(w.tree) && HoldsOk(w) }

  /** A publication is the sequential effect on the current tree; a reader's leaves it alone. */
  lemma PublishIsAtomic(w: World, a: Agent, w': World)
    requires Inv(w) && Next(w, Publish(a), w')
    ensures w'.tree == Apply(w.tree, Last(w'.log)) && Fits(w.tree, Last(w'.log)) && Front(w'.log) == w.log
    ensures TreeOk(w'.tree)
    ensures w.holds[a].mode.Shared? ==> w'.tree == w.tree
  {
    assert HoldOk(w, a);
    match a
    case Handler(id) => HandleKeepsTree(w.tree, w.calls[id]);
    case Generator(v) => GenerationKeepsTree(w.tree, v);
  }

  lemma PublishKeepsHolds(w: World, a: Agent, tree: Tree, log: seq<Event>)
    requires HoldsOk(w) && a in w.holds && !w.holds[a].done && (w.holds[a].mode.Shared? ==> tree == w.tree)
    ensures HoldsOk(w.(tree := tree, log := log, holds := w.holds[a := w.holds[a].(done := true)]))
  {
  }

  lemma LockStepKeepsHolds(w: World, s: Step, w': World)
    requires HoldsOk(w) && Next(w, s, w') && !s.Publish?
    ensures HoldsOk(w') && w'.tree == w.tree && w'.log == w.log
  {
  }

  lemma NextKeepsInv(w: World, s: Step, w': World)
    requires Inv(w) && Next(w, s, w')
    ensures Inv(w')
  {
    if s.Publish? {
      PublishIsAtomic(w, s.agent, w');
      PublishKeepsHolds(w, s.agent, w'.tree, w'.log);
    } else {
      LockStepKeepsHolds(w, s, w');
    }
  }

  lemma {:induction false} RunKeepsInv(trace: seq<World>, steps: seq<Step>, n: nat)
    requires Run(trace, steps) && n < |trace|
    ensures Inv(trace[n])
  {
    if n > 0 {
      RunKeepsInv(trace, steps, n - 1);
      NextKeepsInv(trace[n - 1], steps[n - 1], trace[n]);
    }
  }

  /** In no reachable state is the lock held exclusively together with anything else. In particular
      a goroutine finishes its generation while no RPC is being served. */
  lemma MutualExclusion(trace: seq<World>, steps: seq<Step>, n: nat, a: Agent, b: Agent)
    requires Run(trace, steps) && n < |trace|
    requires a in trace[n].holds && b in trace[n].holds && a != b
    ensures trace[n].holds[a].mode.Shared? && trace[n].holds[b].mode.Shared?
    ensures a.Handler? && a.id in trace[n].calls && trace[n].calls[a.id].ReadOnly?
  {
    RunKeepsInv(trace, steps, n);
    assert HoldOk(trace[n], a) && HoldOk(trace[n], b);
  }

  // ---------------------------------------------------------------------------------------
  // Serializability
  // ---------------------------------------------------------------------------------------

  function Front(log: seq<Event>): seq<Event>
    requires log != []
  {
    log[..|log| - 1]
  }

  function Last(log: seq<Event>): Event
    requires log != []
  {
    log[|log| - 1]
  }

  function Apply(t: Tree, e: Event): Tree {
    match e
    case Served(rpc, _) => FakeKms.Handle(t, rpc).0
    case Generated(v) => if HasVersion(t, v) then FinishGeneration(t, v) else t
  }

  /** `e` can happen in `t`: the reply is the one the sequential handler gives; the goroutine exists. */
  predicate Fits(t: Tree, e: Event) {
    match e
    case Served(rpc, code) => FakeKms.Handle(t, rpc).1 == code
    case Generated(v) => v in t.pending
  }

  /** The tree a sequential server reaches from nothing by the operations of `log`. */
  function Replay(log: seq<Event>): Tree {
    if log == [] then INIT.tree else Apply(Replay(Front(log)), Last(log))
  }

  predicate Sequential(log: seq<Event>) {
    log == [] || (Sequential(Front(log)) && Fits(Replay(Front(log)), Last(log)))
  }

  /** Every reachable tree, and every reply given on the way, is that of serving the same RPCs and
      finishing the same generations one after the other. */
  lemma {:induction false} Serializable(trace: seq<World>, steps: seq<Step>, n: nat)
    requires Run(trace, steps) && n < |trace|
    ensures Sequential(trace[n].log) && trace[n].tree == Replay(trace[n].log)
  {
    if n > 0 {
      Serializable(trace, steps, n - 1);
      RunKeepsInv(trace, steps, n - 1);
      if steps[n - 1].Publish? {
        PublishIsAtomic(trace[n - 1], steps[n - 1].agent, trace[n]);
      }
    }
  }

  lemma Extend(log: seq<Event>, e: Event)
    ensures Replay(log + [e]) == Apply(Replay(log), e)
    ensures Sequential(log + [e]) <==> Sequential(log) && Fits(Replay(log), e)
  {
  }

  lemma ExtendRun(trace: seq<World>, steps: seq<Step>, s: Step, w: World)
    requires Run(trace, steps) && Next(trace[|steps|], s, w)
    ensures Run(trace + [w], steps + [s])
  {
  }

  /** One more operation in a world where nothing is going on: it arrives, gets the lock, publishes
      and leaves. */
  lemma OneMore(trace: seq<World>, steps: seq<Step>, e: Event) returns (trace': seq<World>, steps': seq<Step>)
    requires Run(trace, steps) && trace[|steps|].holds == map[] && trace[|steps|].calls == map[]
    requires Fits(trace[|steps|].tree, e)
    ensures Run(trace', steps')
    ensures trace'[|steps'|] == World(Apply(trace[|steps|].tree, e), map[], map[], trace[|steps|].log + [e])
  {
    var w := trace[|steps|];
    trace', steps' := trace, steps;
    var a := if e.Served? then Handler(0) else Generator(e.version);
    if e.Served? {
      w := w.(calls := map[0 := e.rpc]);
      ExtendRun(trace', steps', Arrive(0, e.rpc), w);
      trace', steps' := trace' + [w], steps' + [Arrive(0, e.rpc)];
    }
    var taken := w.(holds := map[a := Hold(ModeOf(w, a), w.tree, false)]);
    ExtendRun(trace', steps', Acquire(a), taken);
    trace', steps' := trace' + [taken], steps' + [Acquire(a)];
    var after := taken.(tree := Apply(w.tree, e), log := w.log + [e], holds := map[a := taken.holds[a].(done := true)]);
    ExtendRun(trace', steps', Publish(a), after);
    trace', steps' := trace' + [after], steps' + [Publish(a)];
    var left := after.(holds := map[], calls := map[]);
    ExtendRun(trace', steps', Release(a), left);
    trace', steps' := trace' + [left], steps' + [Release(a)];
  }

  /** Conversely, every sequential history is that of some run. */
  lemma {:induction false} Realizable(log: seq<Event>) returns (trace: seq<World>, steps: seq<Step>)
    requires Sequential(log)
    ensures Run(trace, steps) && trace[|steps|] == World(Replay(log), map[], map[], log)
  {
    if log == [] {
      trace, steps := [INIT], [];
    } else {
      trace, steps := Realizable(Front(log));
      trace, steps := OneMore(trace, steps, Last(log));
      assert Front(log) + [Last(log)] == log;
    }
  }

  lemma ReaderStep(trace: seq<World>, steps: seq<Step>, n: nat, a: Agent)
    requires Run(trace, steps) && n < |steps| && a in trace[n].holds && trace[n].holds[a].mode.Shared?
    ensures trace[n + 1].tree == trace[n].tree
  {
    RunKeepsInv(trace, steps, n);
    var w, s, w' := trace[n], steps[n], trace[n + 1];
    if s.Publish? {
      assert HoldOk(w, s.agent);
      PublishIsAtomic(w, s.agent, w');
    }
  }

  /** While an RPC with a read lock is being served, the tree it reads does not change. */
  lemma {:induction false} ReadersSeeOneTree(trace: seq<World>, steps: seq<Step>, m: nat, n: nat, a: Agent)
    requires Run(trace, steps) && m <= n < |trace|
    requires forall i | m <= i <= n :: a in trace[i].holds && trace[i].holds[a].mode.Shared?
    ensures trace[m].tree == trace[n].tree
  {
    if m < n {
      ReadersSeeOneTree(trace, steps, m, n - 1, a);
      ReaderStep(trace, steps, n - 1, a);
    }
  }

  // ---------------------------------------------------------------------------------------
  // Asynchronous generation over whole runs
  // ---------------------------------------------------------------------------------------

  /** Two read-only RPCs can be served at the same time. */
  lemma ReadersOverlap() returns (trace: seq<World>, steps: seq<Step>)
    ensures Run(trace, steps) && Handler(0) in trace[|steps|].holds && Handler(1) in trace[|steps|].holds
  {
    var hold := Hold(Shared, INIT.tree, false);
    var w1 := INIT.(calls := map[0 := ReadOnly]);
    var w2 := w1.(calls := map[0 := ReadOnly, 1 := ReadOnly]);
    var w3 := w2.(holds := map[Handler(0) := hold]);
    var w4 := w3.(holds := map[Handler(0) := hold, Handler(1) := hold]);
    trace, steps := [INIT, w1, w2, w3, w4], [Arrive(0, ReadOnly), Arrive(1, ReadOnly), Acquire(Handler(0)), Acquire(Handler(1))];
    assert w2.calls == w1.calls[1 := ReadOnly] && w4.holds == w3.holds[Handler(1) := hold];
  }

  lemma {:induction false} ReplayOk(log: seq<Event>)
    requires Sequential(log)
    ensures TreeOk(Replay(log))
  {
    if log != [] {
      ReplayOk(Front(log));
      var t := Replay(Front(log));
      match Last(log)
      case Served(rpc, _) => HandleKeepsTree(t, rpc);
      case Generated(v) => GenerationKeepsTree(t, v);
    }
  }

  /** Version `u` keeps all but its state and, once it has any, its key material. */
  ghost predicate Persists(t: Tree, u: VersionName, t': Tree) {
    HasVersion(t, u) ==>
      && HasVersion(t', u)
      && var before, after := VersionAt(t, u), VersionAt(t', u);
         && before == after.(state := before.state, hasMaterial := before.hasMaterial)
         && (before.hasMaterial ==> after.hasMaterial)
  }

  lemma EventPersists(t: Tree, e: Event, u: VersionName)
    requires TreeOk(t) && Fits(t, e)
    ensures Persists(t, u, Apply(t, e))
  {
    match e
    case Served(rpc, _) => HandleEffect(t, rpc, u);
    case Generated(v) => FinishLookups(t, v, u);
  }

  lemma PersistsTwice(t: Tree, u: VersionName, t': Tree, t'': Tree)
    requires Persists(t, u, t') && Persists(t', u, t'')
    ensures Persists(t, u, t'')
  {
  }

  lemma StepPersists(trace: seq<World>, steps: seq<Step>, n: nat, u: VersionName)
    requires Run(trace, steps) && n < |steps|
    ensures Persists(trace[n].tree, u, trace[n + 1].tree)
  {
    RunKeepsInv(trace, steps, n);
    var w, s, w' := trace[n], steps[n], trace[n + 1];
    if s.Publish? {
      PublishIsAtomic(w, s.agent, w');
      EventPersists(w.tree, Last(w'.log), u);
    }
  }

  /** No version is ever lost, renamed or given another algorithm, and none loses its key material. */
  lemma {:induction false} VersionsPersist(trace: seq<World>, steps: seq<Step>, m: nat, n: nat, u: VersionName)
    requires Run(trace, steps) && m <= n < |trace|
    ensures Persists(trace[m].tree, u, trace[n].tree)
  {
    if m < n {
      VersionsPersist(trace, steps, m, n - 1, u);
      StepPersists(trace, steps, n - 1, u);
      PersistsTwice(trace[m].tree, u, trace[n - 1].tree, trace[n].tree);
    }
  }

  /** The RPC sets the state of a version whose goroutine is still at work. */
  predicate Disturbs(t: Tree, e: Event) { e.Served? && TouchesPending(t, e.rpc) }

  /** It sets it to ENABLED. */
  predicate EnablesEarly(t: Tree, e: Event) { Disturbs(t, e) && e.rpc.state.Enabled? }

  /** `EnabledOk` holds in every state that `log` passes through. */
  ghost predicate EnabledThroughout(log: seq<Event>) {
    EnabledOk(Replay(log)) && (log == [] || EnabledThroughout(Front(log)))
  }

  predicate NeverEnablesEarly(log: seq<Event>) {
    log == [] || (NeverEnablesEarly(Front(log)) && !EnablesEarly(Replay(Front(log)), Last(log)))
  }

  ghost predicate PendingThroughout(log: seq<Event>) {
    PendingStates(Replay(log)) && (log == [] || PendingThroughout(Front(log)))
  }

  predicate NeverDisturbs(log: seq<Event>) {
    log == [] || (NeverDisturbs(Front(log)) && !Disturbs(Replay(Front(log)), Last(log)))
  }

  lemma {:induction false} EnabledExactly(log: seq<Event>)
    requires Sequential(log)
    ensures EnabledThroughout(log) <==> NeverEnablesEarly(log)
  {
    if log != [] {
      EnabledExactly(Front(log));
      ReplayOk(Front(log));
      var t := Replay(Front(log));
      if EnabledOk(t) {
        match Last(log)
        case Served(rpc, _) => EnabledKeptExactly(t, rpc);
        case Generated(v) => GenerationKeepsStates(t, v);
      }
    }
  }

  lemma {:induction false} PendingExactly(log: seq<Event>)
    requires Sequential(log)
    ensures PendingThroughout(log) <==> NeverDisturbs(log)
  {
    if log != [] {
      PendingExactly(Front(log));
      ReplayOk(Front(log));
      var t := Replay(Front(log));
      if PendingStates(t) {
        match Last(log)
        case Served(rpc, _) => PendingStatesKept(t, rpc);
        case Generated(v) => GenerationKeepsStates(t, v);
      }
    }
  }

  /** Over a whole run every ENABLED version has key material exactly if no RPC enables a version
      that is still being generated; and PENDING_GENERATION means "being generated" exactly if no
      RPC sets the state of such a version. */
  lemma GenerationStates(trace: seq<World>, steps: seq<Step>, n: nat)
    requires Run(trace, steps) && n < |trace|
    ensures EnabledThroughout(trace[n].log) <==> NeverEnablesEarly(trace[n].log)
    ensures PendingThroughout(trace[n].log) <==> NeverDisturbs(trace[n].log)
    ensures NeverDisturbs(trace[n].log) ==> EnabledOk(trace[n].tree) && PendingStates(trace[n].tree)
  {
    Serializable(trace, steps, n);
    EnabledExactly(trace[n].log);
    PendingExactly(trace[n].log);
    if NeverDisturbs(trace[n].log) {
      NeverDisturbsIsStronger(trace[n].log);
    }
  }

  lemma {:induction false} NeverDisturbsIsStronger(log: seq<Event>)
    requires NeverDisturbs(log)
    ensures NeverEnablesEarly(log)
  {
    if log != [] {
      NeverDisturbsIsStronger(Front(log));
    }
  }

  /** Undisturbed, a goroutine moves its version from PENDING_GENERATION to ENABLED, and no other. */
  lemma GenerationCompletes(trace: seq<World>, steps: seq<Step>, n: nat, v: VersionName, u: VersionName)
    requires Run(trace, steps) && n < |steps| && steps[n] == Publish(Generator(v)) && NeverDisturbs(trace[n].log)
    ensures var t, t' := trace[n].tree, trace[n + 1].tree;
            && HasVersion(t, v) && VersionAt(t, v).state.PendingGeneration?
            && HasVersion(t', v) && VersionAt(t', v).state.Enabled? && VersionAt(t', v).hasMaterial
            && (u != v && HasVersion(t, u) ==> HasVersion(t', u) && VersionAt(t', u) == VersionAt(t, u))
    ensures trace[n].holds.Keys == {Generator(v)}
  {
    GenerationStates(trace, steps, n);
    RunKeepsInv(trace, steps, n);
    assert Next(trace[n], steps[n], trace[n + 1]);
    assert HoldOk(trace[n], Generator(v));
    PublishIsAtomic(trace[n], Generator(v), trace[n + 1]);
    FinishLookups(trace[n].tree, v, v);
    FinishLookups(trace[n].tree, v, u);
  }

  lemma OneDigit(n: nat)
    requires n < 10
    ensures ValidId(Itoa(n))
  {
  }

  lemma NewSigningKey(t: Tree, k: CryptoKeyName, rpc: Rpc) returns (v: VersionName)
    requires k.WellFormed() && k.keyRing in t.rings && k !in t.rings[k.keyRing].keys
    requires rpc == CreateCryptoKey(k.keyRing.Print(), k.id, AsymmetricSign, EcSignP256Sha256, Software, false)
    ensures FakeKms.Handle(t, rpc).1 == OK && v in FakeKms.Handle(t, rpc).0.pending && v.WellFormed()
  {
    KeyRingRoundTrip(k.keyRing.Print(), k.keyRing);
    CryptoKeyRoundTrip(k.Print(), k);
    var key := KeyTemplate(AsymmetricSign, EcSignP256Sha256, Software).(name := k.Print());
    assert FakeKms.Handle(t, rpc) == AddVersion(t, k, key);
    v := NextVersionName(key);
    OneDigit(|key.versions| + 1);
  }

  lemma FirstVersion(k: CryptoKeyName) returns (log: seq<Event>, v: VersionName)
    requires k.WellFormed()
    ensures Sequential(log) && v in Replay(log).pending && v.WellFormed()
  {
    var ring := Served(CreateKeyRing(k.keyRing.location.Print(), k.keyRing.id), OK);
    LocationRoundTrip(k.keyRing.location.Print(), k.keyRing.location);
    Extend([], ring);
    log := [] + [ring];
    var key := CreateCryptoKey(k.keyRing.Print(), k.id, AsymmetricSign, EcSignP256Sha256, Software, false);
    v := NewSigningKey(Replay(log), k, key);
    Extend(log, Served(key, OK));
    log := log + [Served(key, OK)];
  }

  lemma EnablePending(t: Tree, v: VersionName)
    requires TreeOk(t) && v in t.pending && v.WellFormed()
    ensures !EnabledOk(FakeKms.Handle(t, UpdateCryptoKeyVersion(v.Print(), Enabled, ["state"])).0)
  {
    VersionRoundTrip(v.Print(), v);
    HandleEffect(t, UpdateCryptoKeyVersion(v.Print(), Enabled, ["state"]), v);
  }

  /** It can go wrong under any key: an asymmetric signing key is created and its first version
      enabled before the goroutine gets the lock. */
  lemma EarlyEnable(k: CryptoKeyName) returns (trace: seq<World>, steps: seq<Step>)
    requires k.WellFormed()
    ensures Run(trace, steps) && !EnabledOk(trace[|steps|].tree)
  {
    var log, v := FirstVersion(k);
    var rpc := UpdateCryptoKeyVersion(v.Print(), Enabled, ["state"]);
    ReplayOk(log);
    EnablePending(Replay(log), v);
    var e := Served(rpc, FakeKms.Handle(Replay(log), rpc).1);
    Extend(log, e);
    trace, steps := Realizable(log + [e]);
  }
}
