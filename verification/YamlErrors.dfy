/** Which errors a failing YAML conversion (kmsp11/config/protoyaml.cc) can report, when the entries of
    maps may come in any order, at any depth. */
module YamlErrors {
  import opened Basics
  import opened Permutations
  import opened Yaml
  import opened YamlOrder

  /** Entry i is good, and entry j repeats its key. */
  predicate Spoils(env: Env, messageType: string, node: Node, i: nat, j: nat) {
    Repeat(node, i, j) && Own(env, messageType, node.entries[i]).Good?
  }

  /** Something in the document fails with this error, and nothing that has a fixed place before it
      fails: the items of a sequence have one, the entries of a map have not. */
  predicate Fails(env: Env, messageType: string, node: Node, error: Error)
    decreases node, 1
  {
    match node
    case Null => false
    case Map(entries) =>
      || (error == InvalidArgument
          && exists i: nat, j: nat | i < |entries| && j < |entries| :: Spoils(env, messageType, node, i, j))
      || exists i | 0 <= i < |entries| :: EntryFails(env, messageType, node, i, error)
    case _ => error == InvalidArgument
  }

  predicate EntryFails(env: Env, messageType: string, node: Node, i: nat, error: Error)
    requires node.Map? && i < |node.entries|
    decreases node, 0
  {
    if !Known(env, messageType, node, i) then error == InvalidArgument
    else FieldFails(env, FieldsOf(env, messageType)[node.entries[i].key.text], node.entries[i].value, error)
  }

  predicate ItemFails(env: Env, messageType: string, node: Node, i: nat, error: Error)
    requires node.Sequence? && i < |node.items|
    decreases node, 2
  {
    && Fails(env, messageType, node.items[i], error)
    && forall j | 0 <= j < i :: Converts(env, messageType, node.items[j])
  }

  predicate Converts(env: Env, messageType: string, node: Node) {
    Convert(env, messageType, node, Fresh(env, messageType)).0 == OK
  }

  /** No nested messages: the wrong shape, or a text that does not parse, is an invalid argument; a type
      that is not supported is an internal error. */
  predicate LeafFails(env: Env, field: Field, node: Node, error: Error) {
    if field.repeated then
      if !node.Sequence? then error == InvalidArgument
      else if field.kind.StringKind? then error == InvalidArgument && HasNonScalar(node.items, 0)
      else error == Internal
    else if !node.Scalar? then error == InvalidArgument
    else match field.kind
      case StringKind => false
      case UInt32Kind => error == InvalidArgument && env.simpleAtoi(node.text).None?
      case BoolKind => error == InvalidArgument && env.simpleAtob(node.text).None?
      case _ => error == Internal
  }

  predicate HasNonScalar(items: seq<Node>, i: nat) { exists k | i <= k < |items| :: !items[k].Scalar? }

  predicate FieldFails(env: Env, field: Field, node: Node, error: Error)
    decreases node, 3
  {
    if !field.kind.MessageKind? || (field.repeated && !node.Sequence?) then LeafFails(env, field, node, error)
    else if field.repeated then exists i | 0 <= i < |node.items| :: ItemFails(env, field.kind.messageType, node, i, error)
    else Fails(env, field.kind.messageType, node, error)
  }

  lemma FailingEntry(env: Env, messageType: string, node: Node, error: Error) returns (i: nat, j: nat)
    requires node.Map? && Fails(env, messageType, node, error)
    ensures || (error == InvalidArgument && Spoils(env, messageType, node, i, j))
            || (i < |node.entries| && EntryFails(env, messageType, node, i, error))
  {
    if i', j' :| 0 <= i' < |node.entries| && 0 <= j' < |node.entries| && error == InvalidArgument && Spoils(env, messageType, node, i', j') {
      i, j := i', j';
    } else {
      i :| 0 <= i < |node.entries| && EntryFails(env, messageType, node, i, error);
      j := i;
    }
  }

  lemma FailingItem(env: Env, field: Field, node: Node, error: Error) returns (i: nat)
    requires field.kind.MessageKind? && field.repeated && node.Sequence? && FieldFails(env, field, node, error)
    ensures i < |node.items| && ItemFails(env, field.kind.messageType, node, i, error)
  {
    i :| 0 <= i < |node.items| && ItemFails(env, field.kind.messageType, node, i, error);
  }

  // ---------------------------------------------------------------------------------------
  // A conversion reports no other error
  // ---------------------------------------------------------------------------------------

  lemma {:induction false} ReportedChild(env: Env, messageType: string, node: Node, i: nat) returns (k: nat)
    requires node.Sequence? && i <= |node.items| && Children(env, messageType, node, i).Bad?
    requires forall j | 0 <= j < i :: Converts(env, messageType, node.items[j])
    ensures k < |node.items| && ItemFails(env, messageType, node, k, Children(env, messageType, node, i).error)
    decreases node, 0, |node.items| - i
  {
    if Converts(env, messageType, node.items[i]) {
      k := ReportedChild(env, messageType, node, i + 1);
    } else {
      Reported(env, messageType, node.items[i], Fresh(env, messageType));
      k := i;
    }
  }

  lemma {:induction false} TextsError(items: seq<Node>, i: nat)
    requires i <= |items|
    ensures if HasNonScalar(items, i) then Texts(items, i) == Bad(InvalidArgument) else Texts(items, i).Good?
    decreases |items| - i
  {
    if i < |items| {
      TextsError(items, i + 1);
    }
  }

  lemma LeafExactly(env: Env, field: Field, node: Node, error: Error)
    requires !field.kind.MessageKind? || (field.repeated && !node.Sequence?)
    ensures FieldValue(env, field, node) == Bad(error) <==> LeafFails(env, field, node, error)
  {
    if node.Sequence? {
      TextsError(node.items, 0);
    }
  }

  lemma {:induction false} ReportedField(env: Env, field: Field, node: Node)
    requires FieldValue(env, field, node).Bad?
    ensures FieldFails(env, field, node, FieldValue(env, field, node).error)
    decreases node, 2
  {
    if !field.kind.MessageKind? || (field.repeated && !node.Sequence?) {
      LeafExactly(env, field, node, FieldValue(env, field, node).error);
    } else if field.repeated {
      var k := ReportedChild(env, field.kind.messageType, node, 0);
    } else {
      Reported(env, field.kind.messageType, node, Fresh(env, field.kind.messageType));
    }
  }

  lemma {:induction false} Reported(env: Env, messageType: string, node: Node, dest: Message)
    requires Convert(env, messageType, node, dest).0.Failed?
    ensures Fails(env, messageType, node, Convert(env, messageType, node, dest).0.error)
    decreases node, 1
  {
    if node.Map? {
      ConvertFromMeans(env, messageType, node, 0, dest);
      var k := FailureMeans(env, messageType, node, dest);
      OwnMeans(env, messageType, node, k);
      if SeenBefore(node.entries, k) {
        var j :| 0 <= j < k && node.entries[j].key == node.entries[k].key;
        OwnMeans(env, messageType, node, j);
        assert Spoils(env, messageType, node, j, k);
      } else {
        if Known(env, messageType, node, k) {
          ReportedField(env, FieldsOf(env, messageType)[node.entries[k].key.text], node.entries[k].value);
        }
        assert EntryFails(env, messageType, node, k, EntryValue(env, messageType, node, k).error);
      }
    }
  }

  // ---------------------------------------------------------------------------------------
  // What can fail does not depend on the order
  // ---------------------------------------------------------------------------------------

  lemma {:induction false} FieldFailsAlike(env: Env, field: Field, a: Node, b: Node, error: Error)
    requires Shuffled(a, b) && FieldFails(env, field, b, error)
    ensures FieldFails(env, field, a, error)
    decreases a, 2
  {
    if !field.kind.MessageKind? || (field.repeated && !b.Sequence?) {
      if a.Sequence? && HasNonScalar(b.items, 0) {
        var k :| 0 <= k < |b.items| && !b.items[k].Scalar?;
        assert Shuffled(a.items[k], b.items[k]);
      }
    } else if field.repeated {
      var messageType := field.kind.messageType;
      var i := FailingItem(env, field, b, error);
      FailsAlike(env, messageType, a.items[i], b.items[i], error);
      forall j | 0 <= j < i ensures Converts(env, messageType, a.items[j]) {
        OrderIndependent(env, messageType, a.items[j], b.items[j], Fresh(env, messageType));
        assert Converts(env, messageType, b.items[j]);
      }
      assert ItemFails(env, messageType, a, i, error);
    } else {
      FailsAlike(env, field.kind.messageType, a, b, error);
    }
  }

  lemma OwnAlike(env: Env, messageType: string, x: Entry, y: Entry)
    requires Shuffled(x.key, y.key) && Shuffled(x.value, y.value)
    ensures x.key.Scalar? <==> y.key.Scalar?
    ensures x.key.Scalar? ==> x.key == y.key
    ensures Own(env, messageType, x).Good? <==> Own(env, messageType, y).Good?
  {
    if x.key.Scalar? && x.key.text in FieldsOf(env, messageType) {
      FieldOrderIndependent(env, FieldsOf(env, messageType)[x.key.text], x.value, y.value);
    }
  }

  /** The two entries are the same up to the order inside them. */
  ghost predicate EntryAlike(a: Node, i: nat, b: Node, j: nat) {
    && a.Map? && b.Map? && i < |a.entries| && j < |b.entries|
    && Shuffled(a.entries[i].key, b.entries[j].key) && Shuffled(a.entries[i].value, b.entries[j].value)
  }

  lemma MatchedBack(a: Node, b: Node) returns (q: seq<nat>)
    requires a.Map? && Shuffled(a, b)
    ensures |q| == |a.entries| == |b.entries| && forall j | 0 <= j < |q| :: EntryAlike(a, q[j], b, j)
    ensures forall i, j | 0 <= i < |q| && 0 <= j < |q| && i != j :: q[i] != q[j]
  {
    var p, q' :| Inverse(p, q', |a.entries|) && Matched(a, b, p);
    q := q';
    forall j | 0 <= j < |q| ensures EntryAlike(a, q[j], b, j) {
      assert p[q[j]] == j;
    }
  }

  lemma {:induction false} EntryFailsAlike(env: Env, messageType: string, a: Node, i: nat, b: Node, j: nat, error: Error)
    requires EntryAlike(a, i, b, j) && EntryFails(env, messageType, b, j, error)
    ensures Fails(env, messageType, a, error)
    decreases a, 0
  {
    var x, y := a.entries[i], b.entries[j];
    if Known(env, messageType, b, j) {
      FieldFailsAlike(env, FieldsOf(env, messageType)[x.key.text], x.value, y.value, error);
    }
    assert EntryFails(env, messageType, a, i, error);
  }

  lemma SpoilsAlike(env: Env, messageType: string, a: Node, i: nat, k: nat, b: Node, j: nat, l: nat)
    requires EntryAlike(a, i, b, j) && EntryAlike(a, k, b, l) && i != k && Spoils(env, messageType, b, j, l)
    ensures Fails(env, messageType, a, InvalidArgument)
  {
    OwnAlike(env, messageType, a.entries[i], b.entries[j]);
    OwnAlike(env, messageType, a.entries[k], b.entries[l]);
    assert Spoils(env, messageType, a, i, k);
  }

  lemma {:induction false} FailsAlike(env: Env, messageType: string, a: Node, b: Node, error: Error)
    requires Shuffled(a, b) && Fails(env, messageType, b, error)
    ensures Fails(env, messageType, a, error)
    decreases a, 1
  {
    if a.Map? {
      var q := MatchedBack(a, b);
      var i, j := FailingEntry(env, messageType, b, error);
      if i < |b.entries| && EntryFails(env, messageType, b, i, error) {
        EntryFailsAlike(env, messageType, a, q[i], b, i, error);
      } else {
        SpoilsAlike(env, messageType, a, q[i], q[j], b, i, j);
      }
    }
  }

  // ---------------------------------------------------------------------------------------
  // Some order reports it
  // ---------------------------------------------------------------------------------------

  lemma {:induction false} ChildrenFail(env: Env, messageType: string, node: Node, i: nat, k: nat, error: Error)
    requires node.Sequence? && i <= k < |node.items|
    requires Convert(env, messageType, node.items[k], Fresh(env, messageType)).0 == Failed(error)
    requires forall j | i <= j < k :: Converts(env, messageType, node.items[j])
    ensures Children(env, messageType, node, i) == Bad(error)
    decreases k - i
  {
    if i < k {
      assert Converts(env, messageType, node.items[i]);
      ChildrenFail(env, messageType, node, i + 1, k, error);
    }
  }

  lemma {:induction false} FieldReports(env: Env, field: Field, a: Node, error: Error) returns (b: Node)
    requires FieldFails(env, field, a, error)
    ensures Shuffled(a, b) && FieldValue(env, field, b) == Bad(error)
    decreases a, 2
  {
    if !field.kind.MessageKind? || (field.repeated && !a.Sequence?) {
      ShuffledSelf(a);
      LeafExactly(env, field, a, error);
      b := a;
    } else if field.repeated {
      var messageType := field.kind.messageType;
      var i := FailingItem(env, field, a, error);
      var item := Reports(env, messageType, a.items[i], Fresh(env, messageType), error);
      b := Sequence(a.items[i := item]);
      forall j | 0 <= j < |a.items| ensures Shuffled(a.items[j], b.items[j]) {
        if j != i {
          ShuffledSelf(a.items[j]);
        }
      }
      ChildrenFail(env, messageType, b, 0, i, error);
    } else {
      b := Reports(env, field.kind.messageType, a, Fresh(env, field.kind.messageType), error);
    }
  }

  lemma {:induction false} EntryReports(env: Env, messageType: string, a: Node, i: nat, error: Error) returns (e: Entry)
    requires a.Map? && i < |a.entries| && EntryFails(env, messageType, a, i, error)
    ensures Shuffled(a.entries[i].key, e.key) && Shuffled(a.entries[i].value, e.value)
    ensures Own(env, messageType, e) == Bad(error)
    decreases a, 0
  {
    e := a.entries[i];
    ShuffledSelf(e.key);
    ShuffledSelf(e.value);
    if Known(env, messageType, a, i) {
      var value := FieldReports(env, FieldsOf(env, messageType)[e.key.text], e.value, error);
      e := Entry(e.key, value);
    }
  }

  /** Entry i replaced by `e`, and moved to the front. */
  lemma FrontReplaced(a: Node, i: nat, e: Entry) returns (b: Node)
    requires a.Map? && i < |a.entries| && Shuffled(a.entries[i].key, e.key) && Shuffled(a.entries[i].value, e.value)
    ensures Shuffled(a, b) && b.Map? && |b.entries| > 0 && b.entries[0] == e
  {
    var a' := Map(a.entries[i := e]);
    b := InFront(a', [i]);
    var p, q :| Inverse(p, q, |a'.entries|) && Moved(a', b, p);
    assert b.entries[0] == a'.entries[[i][0]];
    forall k | 0 <= k < |p|
      ensures Shuffled(a.entries[k].key, b.entries[p[k]].key) && Shuffled(a.entries[k].value, b.entries[p[k]].value)
    {
      assert b.entries[p[k]] == a'.entries[k];
      if k != i {
        ShuffledSelf(a.entries[k].key);
        ShuffledSelf(a.entries[k].value);
      }
    }
    assert Matched(a, b, p);
  }

  lemma {:induction false} Reports(env: Env, messageType: string, a: Node, dest: Message, error: Error) returns (b: Node)
    requires Fails(env, messageType, a, error)
    ensures Shuffled(a, b) && Convert(env, messageType, b, dest).0 == Failed(error)
    decreases a, 1
  {
    ShuffledSelf(a);
    b := a;
    if a.Map? {
      var i, j := FailingEntry(env, messageType, a, error);
      if i < |a.entries| && EntryFails(env, messageType, a, i, error) {
        var e := EntryReports(env, messageType, a, i, error);
        b := FrontReplaced(a, i, e);
        ReportsFirst(env, messageType, b, dest);
      } else {
        b := ReportsRepeat(env, messageType, a, dest, i, j);
      }
    }
  }

  lemma ReportsFirst(env: Env, messageType: string, node: Node, dest: Message)
    requires node.Map? && |node.entries| > 0 && Own(env, messageType, node.entries[0]).Bad?
    ensures Convert(env, messageType, node, dest).0 == Failed(Own(env, messageType, node.entries[0]).error)
  {
    OwnMeans(env, messageType, node, 0);
    FailureFrom(env, messageType, node, 0, 0, dest, dest);
  }

  lemma ReportsRepeat(env: Env, messageType: string, a: Node, dest: Message, i: nat, j: nat) returns (b: Node)
    requires a.Map? && Spoils(env, messageType, a, i, j)
    ensures Shuffled(a, b) && Convert(env, messageType, b, dest).0 == Failed(InvalidArgument)
  {
    b := InFront(a, [i, j]);
    PermutedShuffled(a, b);
    assert b.entries[0] == a.entries[i] && b.entries[1] == a.entries[j];
    GoodThenBad(env, messageType, b, dest);
  }

  /** Some order of the entries of maps, at any depth, makes the conversion report this error if and
      only if the document can fail with it. */
  lemma SomeError(env: Env, messageType: string, node: Node, dest: Message, error: Error)
    ensures (exists b :: Shuffled(node, b) && Convert(env, messageType, b, dest).0 == Failed(error))
       <==> Fails(env, messageType, node, error)
  {
    if b :| Shuffled(node, b) && Convert(env, messageType, b, dest).0 == Failed(error) {
      Reported(env, messageType, b, dest);
      FailsAlike(env, messageType, node, b, error);
    }
    if Fails(env, messageType, node, error) {
      var b := Reports(env, messageType, node, dest, error);
    }
  }
}
