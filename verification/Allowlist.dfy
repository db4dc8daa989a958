/** fakekms/proto_allowlist.go: walking a request to see whether it has only supported fields. The
    order in which a message's fields are visited is not defined, and a walk ends at the first
    field it does not like; so what a walk can end with is a matter of the order. */
module Allowlist {
  import opened Permutations

  /** The value of a populated field. `Plain` is everything that is not of message kind, lists of
      such values included. The other three are of message kind: a map field is one as well. */
  datatype Value = Plain | Nested(message: Message) | MessageList(items: seq<Message>) | MapField(size: nat)

  datatype Field = Field(name: string, value: Value)

  /** A message with its populated fields in the order in which Range visits them. */
  datatype Message = Message(unknown: bool, fields: seq<Field>)

  datatype Outcome = Accepted | Refused | Panicked

  function PathOf(prefix: string, name: string): string {
    if prefix == "" then name else prefix + "." + name
  }

  /** The callback of Range: a list or map that is not allowed is taken for a message. */
  function CheckField(allowed: set<string>, path: string, value: Value): Outcome
    decreases value, 0
  {
    if path in allowed then Accepted
    else match value
      case Plain => Refused
      case Nested(message) => Check(allowed, path, message)
      case _ => Panicked
  }

  /** The rest of Range, from field i on. */
  function CheckFrom(allowed: set<string>, prefix: string, m: Message, i: nat): Outcome
    requires i <= |m.fields|
    decreases m, 0, |m.fields| - i
  {
    if i == |m.fields| then Accepted
    else
      var outcome := CheckField(allowed, PathOf(prefix, m.fields[i].name), m.fields[i].value);
      if outcome.Accepted? then CheckFrom(allowed, prefix, m, i + 1) else outcome
  }

  function Check(allowed: set<string>, prefix: string, m: Message): Outcome
    decreases m, 1
  {
    if m.unknown then Refused else CheckFrom(allowed, prefix, m, 0)
  }

  method CheckInternal(allowed: set<string>, prefix: string, m: Message) returns (outcome: Outcome)
    ensures outcome == Check(allowed, prefix, m)
    decreases m
  {
    if m.unknown {
      return Refused;
    }
    for i := 0 to |m.fields|
      invariant CheckFrom(allowed, prefix, m, i) == CheckFrom(allowed, prefix, m, 0)
    {
      var Field(name, value) := m.fields[i];
      var path := PathOf(prefix, name);
      if !value.Plain? {
        if path !in allowed {
          if !value.Nested? {
            return Panicked;
          }
          outcome := CheckInternal(allowed, path, value.message);
          if outcome != Accepted {
            return;
          }
        }
      } else if path !in allowed {
        return Refused;
      }
    }
    outcome := Accepted;
  }

  // ---------------------------------------------------------------------------------------
  // What a walk can end with
  // ---------------------------------------------------------------------------------------

  /** No unknown fields, and every field is allowed or a single message of which that holds. */
  predicate Clean(allowed: set<string>, prefix: string, m: Message)
    decreases m, 1
  {
    !m.unknown && forall i | 0 <= i < |m.fields| :: CleanField(allowed, prefix, m, i)
  }

  predicate CleanField(allowed: set<string>, prefix: string, m: Message, i: nat)
    requires i < |m.fields|
    decreases m, 0
  {
    var path, value := PathOf(prefix, m.fields[i].name), m.fields[i].value;
    path in allowed || (value.Nested? && Clean(allowed, path, value.message))
  }

  /** The message has a field that is neither allowed, nor inside an allowed message, nor beside
      unknown fields on the way to it; a plain one if the outcome is a refusal (or else there are
      unknown fields instead), and a list or map of message kind if it is a panic. */
  predicate Offends(allowed: set<string>, prefix: string, m: Message, outcome: Outcome)
    decreases m, 1
  {
    if m.unknown then outcome == Refused
    else exists i | 0 <= i < |m.fields| :: OffendsAt(allowed, prefix, m, i, outcome)
  }

  predicate OffendsAt(allowed: set<string>, prefix: string, m: Message, i: nat, outcome: Outcome)
    requires i < |m.fields|
    decreases m, 0
  {
    var path, value := PathOf(prefix, m.fields[i].name), m.fields[i].value;
    && path !in allowed
    && if value.Nested? then Offends(allowed, path, value.message, outcome)
       else outcome == if value.Plain? then Refused else Panicked
  }

  /** `b` is `a` visited in another order, at any depth. */
  ghost predicate Reordered(a: Message, b: Message)
    decreases a, 2
  {
    && b.unknown == a.unknown && |b.fields| == |a.fields|
    && exists p, q :: Inverse(p, q, |a.fields|) && FieldsReordered(a, b, p)
  }

  ghost predicate FieldsReordered(a: Message, b: Message, p: seq<nat>)
    requires |p| == |a.fields| && forall i | 0 <= i < |p| :: p[i] < |b.fields|
    decreases a, 1
  {
    forall i | 0 <= i < |p| :: FieldReordered(a, i, b, p[i])
  }

  ghost predicate FieldReordered(a: Message, i: nat, b: Message, j: nat)
    requires i < |a.fields| && j < |b.fields|
    decreases a, 0
  {
    var x, y := a.fields[i], b.fields[j];
    && x.name == y.name
    && if x.value.Nested? then y.value.Nested? && Reordered(x.value.message, y.value.message) else y.value == x.value
  }

  // ---------------------------------------------------------------------------------------
  // One order
  // ---------------------------------------------------------------------------------------

  lemma {:induction false} FieldOutcome(allowed: set<string>, prefix: string, m: Message, i: nat)
    requires i < |m.fields|
    ensures var outcome := CheckField(allowed, PathOf(prefix, m.fields[i].name), m.fields[i].value);
            && (outcome.Accepted? <==> CleanField(allowed, prefix, m, i))
            && (!outcome.Accepted? ==> OffendsAt(allowed, prefix, m, i, outcome))
    decreases m, 0
  {
    if m.fields[i].value.Nested? {
      WalkOutcome(allowed, PathOf(prefix, m.fields[i].name), m.fields[i].value.message);
    }
  }

  lemma {:induction false} OutcomeFrom(allowed: set<string>, prefix: string, m: Message, i: nat)
    requires i <= |m.fields|
    ensures var outcome := CheckFrom(allowed, prefix, m, i);
            && (outcome.Accepted? <==> forall k | i <= k < |m.fields| :: CleanField(allowed, prefix, m, k))
            && (!outcome.Accepted? ==> exists k | i <= k < |m.fields| :: OffendsAt(allowed, prefix, m, k, outcome))
    decreases m, 1, |m.fields| - i
  {
    if i < |m.fields| {
      FieldOutcome(allowed, prefix, m, i);
      OutcomeFrom(allowed, prefix, m, i + 1);
    }
  }

  /** In any one order a walk accepts exactly the clean messages, and ends otherwise only with what
      the message offends by. */
  lemma {:induction false} WalkOutcome(allowed: set<string>, prefix: string, m: Message)
    ensures var outcome := Check(allowed, prefix, m);
            && (outcome.Accepted? <==> Clean(allowed, prefix, m))
            && (!outcome.Accepted? ==> Offends(allowed, prefix, m, outcome))
    decreases m, 2
  {
    if !m.unknown {
      OutcomeFrom(allowed, prefix, m, 0);
      if CheckFrom(allowed, prefix, m, 0).Accepted? {
        CleanFields(allowed, prefix, m);
      }
    }
  }

  lemma CleanFields(allowed: set<string>, prefix: string, m: Message)
    requires !m.unknown && forall i | 0 <= i < |m.fields| :: CleanField(allowed, prefix, m, i)
    ensures Clean(allowed, prefix, m)
  {
  }

  lemma OffendingField(allowed: set<string>, prefix: string, m: Message, outcome: Outcome) returns (i: nat)
    requires !m.unknown && Offends(allowed, prefix, m, outcome)
    ensures i < |m.fields| && OffendsAt(allowed, prefix, m, i, outcome)
  {
    i :| i < |m.fields| && OffendsAt(allowed, prefix, m, i, outcome);
  }

  // ---------------------------------------------------------------------------------------
  // All orders
  // ---------------------------------------------------------------------------------------

  lemma {:induction false} OffendsAtAlike(
    allowed: set<string>, prefix: string, a: Message, i: nat, b: Message, j: nat, outcome: Outcome)
    requires i < |a.fields| && j < |b.fields| && FieldReordered(a, i, b, j)
    ensures OffendsAt(allowed, prefix, a, i, outcome) <==> OffendsAt(allowed, prefix, b, j, outcome)
    decreases a, 0
  {
    var x := a.fields[i];
    if x.value.Nested? {
      OffendsAlike(allowed, PathOf(prefix, x.name), x.value.message, b.fields[j].value.message, outcome);
    }
  }

  lemma {:induction false} OffendsAlike(allowed: set<string>, prefix: string, a: Message, b: Message, outcome: Outcome)
    requires Reordered(a, b)
    ensures Offends(allowed, prefix, a, outcome) <==> Offends(allowed, prefix, b, outcome)
    decreases a, 1
  {
    var p, q :| Inverse(p, q, |a.fields|) && FieldsReordered(a, b, p);
    forall i | 0 <= i < |p|
      ensures OffendsAt(allowed, prefix, a, i, outcome) <==> OffendsAt(allowed, prefix, b, p[i], outcome)
    {
      OffendsAtAlike(allowed, prefix, a, i, b, p[i], outcome);
    }
    if !b.unknown && Offends(allowed, prefix, b, outcome) {
      var j := OffendingField(allowed, prefix, b, outcome);
      assert OffendsAt(allowed, prefix, a, q[j], outcome) <==> OffendsAt(allowed, prefix, b, p[q[j]], outcome);
    }
  }

  lemma {:induction false} ReorderedSelf(m: Message)
    ensures Reordered(m, m)
  {
    var p := Identity(|m.fields|);
    forall i | 0 <= i < |p| ensures FieldReordered(m, i, m, p[i]) {
      if m.fields[i].value.Nested? {
        ReorderedSelf(m.fields[i].value.message);
      }
    }
    assert FieldsReordered(m, m, p);
  }

  /** The order that visits the offending field first. */
  lemma {:induction false} OffenceFound(allowed: set<string>, prefix: string, m: Message, outcome: Outcome) returns (m': Message)
    requires !outcome.Accepted? && Offends(allowed, prefix, m, outcome)
    ensures Reordered(m, m') && Check(allowed, prefix, m') == outcome
    decreases m
  {
    if m.unknown {
      ReorderedSelf(m);
      return m;
    }
    var k := OffendingField(allowed, prefix, m, outcome);
    var Field(name, value) := m.fields[k];
    if value.Nested? {
      var child := OffenceFound(allowed, PathOf(prefix, name), value.message, outcome);
      value := Nested(child);
    }
    var rest := MovedToFront(m.fields, k)[1..];
    m' := Message(false, [Field(name, value)] + rest);
    assert CheckFrom(allowed, prefix, m', 0) == outcome;
    var p := ToFront(|m.fields|, k);
    FrontInverse(|m.fields|, k);
    forall i | 0 <= i < |p| ensures FieldReordered(m, i, m', p[i]) {
      if i != k && m.fields[i].value.Nested? {
        ReorderedSelf(m.fields[i].value.message);
      }
    }
    assert FieldsReordered(m, m', p);
  }

  /** Whether a message is accepted does not depend on the order, and is said by Clean. Whether
      some order makes the walk refuse it, or panic, is said by Offends. */
  lemma SomeOrder(allowed: set<string>, prefix: string, m: Message, outcome: Outcome)
    ensures (exists m' :: Reordered(m, m') && Check(allowed, prefix, m') == outcome)
       <==> if outcome.Accepted? then Clean(allowed, prefix, m) else Offends(allowed, prefix, m, outcome)
  {
    WalkOutcome(allowed, prefix, m);
    ReorderedSelf(m);
    if m' :| Reordered(m, m') && Check(allowed, prefix, m') == outcome {
      WalkOutcome(allowed, prefix, m');
      if outcome.Accepted? {
        NoWayOut(allowed, prefix, m, m');
      } else {
        OffendsAlike(allowed, prefix, m, m', outcome);
      }
    }
    if !outcome.Accepted? && Offends(allowed, prefix, m, outcome) {
      var m' := OffenceFound(allowed, prefix, m, outcome);
    }
  }

  lemma NoWayOut(allowed: set<string>, prefix: string, m: Message, m': Message)
    requires Reordered(m, m') && Clean(allowed, prefix, m')
    ensures Clean(allowed, prefix, m)
  {
    WalkOutcome(allowed, prefix, m);
    var outcome := Check(allowed, prefix, m);
    if !outcome.Accepted? {
      OffendsAlike(allowed, prefix, m, m', outcome);
      var m'' := OffenceFound(allowed, prefix, m', outcome);
      CleanNeverOffends(allowed, prefix, m', outcome);
    }
  }

  lemma {:induction false} CleanNeverOffends(allowed: set<string>, prefix: string, m: Message, outcome: Outcome)
    requires Clean(allowed, prefix, m) && !outcome.Accepted?
    ensures !Offends(allowed, prefix, m, outcome)
    decreases m
  {
    forall i | 0 <= i < |m.fields| ensures !OffendsAt(allowed, prefix, m, i, outcome) {
      assert CleanField(allowed, prefix, m, i);
      var path, value := PathOf(prefix, m.fields[i].name), m.fields[i].value;
      if path !in allowed {
        CleanNeverOffends(allowed, path, value.message, outcome);
      }
    }
  }

  // ---------------------------------------------------------------------------------------
  // Paths
  // ---------------------------------------------------------------------------------------

  /** A plain field names[n - 1] in a message names[n - 2] in ... in the request. */
  function Chain(names: seq<string>): Message
    requires names != []
  {
    Message(false, [Field(names[0], if |names| == 1 then Plain else Nested(Chain(names[1..])))])
  }

  function Dotted(names: seq<string>): string {
    if |names| <= 1 then (if names == [] then "" else names[0]) else names[0] + "." + Dotted(names[1..])
  }

  /** The dotted path of the field, or of a message that it is in, is allowed. */
  predicate SomePrefixAllowed(allowed: set<string>, names: seq<string>) {
    exists k | 1 <= k <= |names| :: Dotted(names[..k]) in allowed
  }

  /** A single field at any depth is accepted if and only if its dotted path is allowed, or that of a
      message it is in; else it is refused. */
  lemma ChainOutcome(allowed: set<string>, names: seq<string>)
    requires names != [] && forall i | 0 <= i < |names| :: names[i] != ""
    ensures Check(allowed, "", Chain(names)) == if SomePrefixAllowed(allowed, names) then Accepted else Refused
  {
    ChainFrom(allowed, names, 0);
    assert names[0..] == names;
  }

  lemma {:induction false} DottedAppend(names: seq<string>, name: string)
    requires names != []
    ensures Dotted(names + [name]) == Dotted(names) + "." + name
  {
    var more := names + [name];
    if |names| == 1 {
      assert more[1..] == [name];
    } else {
      DottedAppend(names[1..], name);
      assert more[1..] == names[1..] + [name];
    }
  }

  lemma {:induction false} DottedNotEmpty(names: seq<string>)
    requires names != [] && forall i | 0 <= i < |names| :: names[i] != ""
    ensures Dotted(names) != ""
  {
  }

  lemma PathIsDotted(names: seq<string>, d: nat)
    requires d < |names| && forall i | 0 <= i < |names| :: names[i] != ""
    ensures PathOf(Dotted(names[..d]), names[d]) == Dotted(names[..d + 1])
  {
    assert names[..d + 1] == names[..d] + [names[d]];
    if d > 0 {
      DottedAppend(names[..d], names[d]);
      DottedNotEmpty(names[..d]);
    }
  }

  lemma {:induction false} ChainFrom(allowed: set<string>, names: seq<string>, d: nat)
    requires d < |names| && forall i | 0 <= i < |names| :: names[i] != ""
    ensures Check(allowed, Dotted(names[..d]), Chain(names[d..]))
         == if exists k | d < k <= |names| :: Dotted(names[..k]) in allowed then Accepted else Refused
    decreases |names| - d
  {
    var path := PathOf(Dotted(names[..d]), names[d]);
    PathIsDotted(names, d);
    var m := Chain(names[d..]);
    assert names[d..][0] == names[d];
    if d + 1 < |names| {
      assert names[d..][1..] == names[d + 1..];
      ChainFrom(allowed, names, d + 1);
    }
    assert CheckFrom(allowed, Dotted(names[..d]), m, 1) == Accepted;
    assert Check(allowed, Dotted(names[..d]), m) == CheckField(allowed, path, m.fields[0].value);
  }

  // ---------------------------------------------------------------------------------------
  // CreateCryptoKey
  // ---------------------------------------------------------------------------------------

  const CREATE_CRYPTO_KEY := {
    "parent", "crypto_key_id", "skip_initial_version_creation", "crypto_key.purpose",
    "crypto_key.version_template.algorithm", "crypto_key.version_template.protection_level"}

  /** A request for a key with labels, which are a map, can make the check panic. */
  lemma LabelsPanic(request: Message, i: nat, j: nat)
    requires !request.unknown && i < |request.fields| && request.fields[i].name == "crypto_key"
    requires request.fields[i].value.Nested?
    requires var key := request.fields[i].value.message;
             !key.unknown && j < |key.fields| && key.fields[j].name == "labels" && key.fields[j].value.MapField?
    ensures exists request' :: Reordered(request, request') && Check(CREATE_CRYPTO_KEY, "", request') == Panicked
  {
    var key := request.fields[i].value.message;
    assert PathOf("crypto_key", "labels") == "crypto_key.labels";
    assert OffendsAt(CREATE_CRYPTO_KEY, "crypto_key", key, j, Panicked);
    assert OffendsAt(CREATE_CRYPTO_KEY, "", request, i, Panicked);
    SomeOrder(CREATE_CRYPTO_KEY, "", request, Panicked);
  }
}
