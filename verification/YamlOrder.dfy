/** How a failing YAML conversion (kmsp11/config/protoyaml.cc) depends on the order of the document. */
module YamlOrder {
  import opened Basics
  import opened Permutations
  import opened Yaml

  // ---------------------------------------------------------------------------------------
  // One order
  // ---------------------------------------------------------------------------------------

  /** Entry k is the first bad one. */
  ghost predicate FirstBad(env: Env, messageType: string, node: Node, k: nat)
    requires node.Map?
  {
    && k < |node.entries| && EntryValue(env, messageType, node, k).Bad?
    && forall i | 0 <= i < k :: EntryValue(env, messageType, node, i).Good?
  }

  /** `m` is `dest` with just the first k entries of `node` applied. */
  ghost predicate Applied(env: Env, messageType: string, node: Node, k: nat, dest: Message, m: Message)
    requires node.Map? && k <= |node.entries|
  {
    && (forall i | 0 <= i < k :: Reflects(env, messageType, node, i, m))
    && (forall name :: SameField(m, dest, name) || exists i | 0 <= i < k :: node.entries[i].key == Scalar(name))
  }

  lemma {:induction false} FailureFrom(env: Env, messageType: string, node: Node, k: nat, i: nat, dest: Message, m: Message)
    requires node.Map? && FirstBad(env, messageType, node, k) && i <= k && Applied(env, messageType, node, i, dest, m)
    ensures var (status, m') := ConvertFrom(env, messageType, node, i, m);
            status == Failed(EntryValue(env, messageType, node, k).error) && Applied(env, messageType, node, k, dest, m')
    decreases k - i
  {
    if i < k {
      EntryMeans(env, messageType, node, i);
      var next := Message(m.fields[node.entries[i].key.text := EntryValue(env, messageType, node, i).value]);
      assert Applied(env, messageType, node, i + 1, dest, next) by {
        forall j | 0 <= j < i ensures Reflects(env, messageType, node, j, next) {
          assert Reflects(env, messageType, node, j, m);
        }
        forall name ensures SameField(next, dest, name) || exists j | 0 <= j < i + 1 :: node.entries[j].key == Scalar(name) {
          assert SameField(m, dest, name) || exists j | 0 <= j < i :: node.entries[j].key == Scalar(name);
        }
      }
      FailureFrom(env, messageType, node, k, i + 1, dest, next);
    }
  }

  /** A map that is not accepted has a first bad entry. The conversion reports its error, having
      applied exactly the entries before it. */
  lemma FailureMeans(env: Env, messageType: string, node: Node, dest: Message) returns (k: nat)
    requires node.Map? && !EntriesGood(env, messageType, node, 0)
    ensures FirstBad(env, messageType, node, k)
    ensures var (status, m) := Convert(env, messageType, node, dest);
            status == Failed(EntryValue(env, messageType, node, k).error) && Applied(env, messageType, node, k, dest, m)
  {
    k := 0;
    while EntryValue(env, messageType, node, k).Good?
      invariant k < |node.entries| && forall i | 0 <= i < k :: EntryValue(env, messageType, node, i).Good?
      decreases |node.entries| - k
    {
      k := k + 1;
    }
    assert Applied(env, messageType, node, 0, dest, dest);
    FailureFrom(env, messageType, node, k, 0, dest, dest);
  }

  /** `b` is `a` with its entries permuted, at this level only. */
  ghost predicate Permuted(a: Node, b: Node)
    requires a.Map?
  {
    b.Map? && |b.entries| == |a.entries| && exists p, q :: Inverse(p, q, |a.entries|) && Moved(a, b, p)
  }

  predicate Moved(a: Node, b: Node, p: seq<nat>)
    requires a.Map? && b.Map? && |p| == |a.entries| && forall i | 0 <= i < |p| :: p[i] < |b.entries|
  {
    forall i | 0 <= i < |p| :: b.entries[p[i]] == a.entries[i]
  }

  // ---------------------------------------------------------------------------------------
  // All orders of one map
  // ---------------------------------------------------------------------------------------

  lemma PermutedShuffled(a: Node, b: Node)
    requires a.Map? && Permuted(a, b)
    ensures Shuffled(a, b)
  {
    var p, q :| Inverse(p, q, |a.entries|) && Moved(a, b, p);
    forall i | 0 <= i < |p|
      ensures Shuffled(a.entries[i].key, b.entries[p[i]].key) && Shuffled(a.entries[i].value, b.entries[p[i]].value)
    {
      ShuffledSelf(a.entries[i].key);
      ShuffledSelf(a.entries[i].value);
    }
    assert Matched(a, b, p);
  }

  /** What an entry comes to if no entry before it has the same key. */
  function Own(env: Env, messageType: string, e: Entry): Result<Value> {
    if !e.key.Scalar? || e.key.text !in FieldsOf(env, messageType) then Bad(InvalidArgument)
    else FieldValue(env, FieldsOf(env, messageType)[e.key.text], e.value)
  }

  lemma OwnMeans(env: Env, messageType: string, node: Node, i: nat)
    requires node.Map? && i < |node.entries|
    ensures EntryValue(env, messageType, node, i) == InPlace(env, messageType, node, i)
  {
  }

  /** Where it stands, a repeated key is an error in itself. */
  function InPlace(env: Env, messageType: string, node: Node, i: nat): Result<Value>
    requires node.Map? && i < |node.entries|
  {
    if SeenBefore(node.entries, i) then Bad(InvalidArgument) else Own(env, messageType, node.entries[i])
  }

  /** Two entries with the same key. */
  predicate Repeat(node: Node, i: nat, j: nat) {
    node.Map? && i < |node.entries| && j < |node.entries| && i != j && node.entries[i].key == node.entries[j].key
  }

  /** `m` holds what the entry says. */
  predicate Says(env: Env, messageType: string, e: Entry, m: Message) {
    e.key.Scalar? && e.key.text in m.fields && Own(env, messageType, e) == Good(m.fields[e.key.text])
  }

  /** All entries that are bad have this error, all others say what `dest` holds already, and it is
      the error of a repeated key if one of these is repeated. */
  ghost predicate OneFailure(env: Env, messageType: string, node: Node, dest: Message, error: Error)
    requires node.Map?
  {
    && (forall i | 0 <= i < |node.entries| ::
          Own(env, messageType, node.entries[i]) == Bad(error) || Says(env, messageType, node.entries[i], dest))
    && (forall i: nat, j: nat | Repeat(node, i, j) && Own(env, messageType, node.entries[i]).Good? :: error == InvalidArgument)
  }

  /** Only the key `name` is repeated, always with this value, and all other entries say what `dest`
      holds already. */
  ghost predicate OneRepeat(env: Env, messageType: string, node: Node, dest: Message, name: string, value: Value)
    requires node.Map?
  {
    && (forall i | 0 <= i < |node.entries| ::
          if node.entries[i].key == Scalar(name) then Own(env, messageType, node.entries[i]) == Good(value)
          else Says(env, messageType, node.entries[i], dest))
    && (forall i: nat, j: nat | Repeat(node, i, j) :: node.entries[i].key == Scalar(name))
  }

  /** Status and message are the same in every order. */
  ghost predicate Insensitive(env: Env, messageType: string, node: Node, dest: Message)
    requires node.Map?
  {
    forall b :: Permuted(node, b) ==> Convert(env, messageType, b, dest) == Convert(env, messageType, node, dest)
  }

  // The condition is enough.

  lemma MovedBack(a: Node, b: Node) returns (q: seq<nat>)
    requires a.Map? && Permuted(a, b)
    ensures |q| == |b.entries| == |a.entries| && (forall j | 0 <= j < |q| :: q[j] < |q| && b.entries[j] == a.entries[q[j]])
    ensures forall i, j | 0 <= i < |q| && 0 <= j < |q| && i != j :: q[i] != q[j]
  {
    var p, q' :| Inverse(p, q', |a.entries|) && Moved(a, b, p);
    q := q';
    forall j | 0 <= j < |q| ensures b.entries[j] == a.entries[q[j]] {
      assert p[q[j]] == j;
    }
  }

  lemma OneFailureMoved(env: Env, messageType: string, a: Node, b: Node, dest: Message, error: Error)
    requires a.Map? && Permuted(a, b) && OneFailure(env, messageType, a, dest, error)
    ensures OneFailure(env, messageType, b, dest, error)
  {
    var q := MovedBack(a, b);
    forall i: nat, j: nat | Repeat(b, i, j) && Own(env, messageType, b.entries[i]).Good? ensures error == InvalidArgument {
      assert Repeat(a, q[i], q[j]);
    }
  }

  lemma OneRepeatMoved(env: Env, messageType: string, a: Node, b: Node, dest: Message, name: string, value: Value)
    requires a.Map? && Permuted(a, b) && OneRepeat(env, messageType, a, dest, name, value)
    ensures OneRepeat(env, messageType, b, dest, name, value)
  {
    var q := MovedBack(a, b);
    forall i: nat, j: nat | Repeat(b, i, j) ensures b.entries[i].key == Scalar(name) {
      assert Repeat(a, q[i], q[j]);
    }
  }

  lemma GoodMoved(env: Env, messageType: string, a: Node, b: Node, dest: Message)
    requires a.Map? && Permuted(a, b)
    ensures EntriesGood(env, messageType, a, 0) <==> EntriesGood(env, messageType, b, 0)
    ensures EntriesGood(env, messageType, a, 0) ==> Convert(env, messageType, a, dest) == Convert(env, messageType, b, dest)
  {
    PermutedShuffled(a, b);
    OrderIndependent(env, messageType, a, b, dest);
    ConvertFromMeans(env, messageType, a, 0, dest);
    ConvertFromMeans(env, messageType, b, 0, dest);
  }

  lemma OneFailureOutcome(env: Env, messageType: string, node: Node, dest: Message, error: Error)
    requires node.Map? && !EntriesGood(env, messageType, node, 0) && OneFailure(env, messageType, node, dest, error)
    ensures Convert(env, messageType, node, dest) == (Failed(error), dest)
  {
    var k := FailureMeans(env, messageType, node, dest);
    var m := Convert(env, messageType, node, dest).1;
    forall i | 0 <= i <= k ensures EntryValue(env, messageType, node, i) == InPlace(env, messageType, node, i) {
      OwnMeans(env, messageType, node, i);
    }
    if SeenBefore(node.entries, k) {
      var j :| 0 <= j < k && node.entries[j].key == node.entries[k].key;
      assert Repeat(node, j, k) && EntryValue(env, messageType, node, j).Good?;
    }
    forall name ensures SameField(m, dest, name) {
      if i :| 0 <= i < k && node.entries[i].key == Scalar(name) {
        assert Reflects(env, messageType, node, i, m);
      }
    }
    SameFields(m, dest);
  }

  lemma OneRepeatOutcome(env: Env, messageType: string, node: Node, dest: Message, name: string, value: Value)
    requires node.Map? && !EntriesGood(env, messageType, node, 0) && OneRepeat(env, messageType, node, dest, name, value)
    ensures Convert(env, messageType, node, dest) == (Failed(InvalidArgument), Message(dest.fields[name := value]))
  {
    var k := FailureMeans(env, messageType, node, dest);
    var m, m' := Convert(env, messageType, node, dest).1, Message(dest.fields[name := value]);
    forall i | 0 <= i <= k ensures EntryValue(env, messageType, node, i) == InPlace(env, messageType, node, i) {
      OwnMeans(env, messageType, node, i);
    }
    var j :| 0 <= j < k && node.entries[j].key == node.entries[k].key;
    assert Repeat(node, j, k);
    forall other ensures SameField(m, m', other) {
      assert Reflects(env, messageType, node, j, m);
      if i :| 0 <= i < k && node.entries[i].key == Scalar(other) {
        assert Reflects(env, messageType, node, i, m);
      }
    }
    SameFields(m, m');
  }

  // And it is needed.

  /** An order in which entries ks[0], ks[1], ... come first. */
  lemma InFront(node: Node, ks: seq<nat>) returns (b: Node)
    requires node.Map? && (forall m | 0 <= m < |ks| :: ks[m] < |node.entries|)
    requires forall l, m | 0 <= l < m < |ks| :: ks[l] != ks[m]
    ensures Permuted(node, b) && |ks| <= |b.entries| && forall m | 0 <= m < |ks| :: b.entries[m] == node.entries[ks[m]]
  {
    var n := |node.entries|;
    var p, q := Bring(n, ks);
    b := Map(seq(n, j requires 0 <= j < n => node.entries[q[j]]));
    assert Moved(node, b, p);
    forall m | 0 <= m < |ks| ensures m < n && b.entries[m] == node.entries[ks[m]] {
      assert p[ks[m]] == m;
    }
    if |ks| > 0 {
      assert p[ks[|ks| - 1]] == |ks| - 1;
    }
  }

  lemma BadFirst(env: Env, messageType: string, node: Node, dest: Message, i: nat)
    requires node.Map? && Insensitive(env, messageType, node, dest) && i < |node.entries|
    requires Own(env, messageType, node.entries[i]).Bad?
    ensures Convert(env, messageType, node, dest) == (Failed(Own(env, messageType, node.entries[i]).error), dest)
  {
    var b := InFront(node, [i]);
    OwnMeans(env, messageType, b, 0);
    FailureFrom(env, messageType, b, 0, 0, dest, dest);
    SameFields(Convert(env, messageType, b, dest).1, dest);
  }

  /** Good entry i, then entry j, which is bad or repeats the key. */
  lemma GoodFirst(env: Env, messageType: string, node: Node, dest: Message, i: nat, j: nat)
    requires node.Map? && Insensitive(env, messageType, node, dest) && i < |node.entries| && j < |node.entries| && i != j
    requires Own(env, messageType, node.entries[i]).Good?
    requires Own(env, messageType, node.entries[j]).Bad? || Repeat(node, i, j)
    ensures var (status, m) := Convert(env, messageType, node, dest);
            && status == Failed(if Repeat(node, i, j) then InvalidArgument else Own(env, messageType, node.entries[j]).error)
            && Says(env, messageType, node.entries[i], m)
            && forall name :: node.entries[i].key == Scalar(name) || SameField(m, dest, name)
  {
    var b := InFront(node, [i, j]);
    assert b.entries[0] == node.entries[i] && b.entries[1] == node.entries[j];
    GoodThenBad(env, messageType, b, dest);
  }

  lemma GoodThenBad(env: Env, messageType: string, node: Node, dest: Message)
    requires node.Map? && |node.entries| >= 2 && Own(env, messageType, node.entries[0]).Good?
    requires Own(env, messageType, node.entries[1]).Bad? || Repeat(node, 0, 1)
    ensures var (status, m) := Convert(env, messageType, node, dest);
            && status == Failed(if Repeat(node, 0, 1) then InvalidArgument else Own(env, messageType, node.entries[1]).error)
            && Says(env, messageType, node.entries[0], m)
            && forall name :: node.entries[0].key == Scalar(name) || SameField(m, dest, name)
  {
    OwnMeans(env, messageType, node, 0);
    OwnMeans(env, messageType, node, 1);
    assert SeenBefore(node.entries, 1) <==> Repeat(node, 0, 1);
    FailureFrom(env, messageType, node, 1, 0, dest, dest);
    assert Reflects(env, messageType, node, 0, Convert(env, messageType, node, dest).1);
  }

  /** Good entry g, then a repeated key. */
  lemma GoodBeforeRepeat(env: Env, messageType: string, node: Node, dest: Message, g: nat, i: nat, j: nat)
    requires node.Map? && Insensitive(env, messageType, node, dest) && g < |node.entries| && Repeat(node, i, j)
    requires node.entries[g].key != node.entries[i].key
    requires Own(env, messageType, node.entries[g]).Good? && Own(env, messageType, node.entries[i]).Good?
    ensures Says(env, messageType, node.entries[g], dest)
  {
    var b := InFront(node, [g, i, j]);
    OwnMeans(env, messageType, b, 0);
    OwnMeans(env, messageType, b, 1);
    OwnMeans(env, messageType, b, 2);
    assert SeenBefore(b.entries, 2) by {
      assert b.entries[1].key == b.entries[2].key;
    }
    FailureFrom(env, messageType, b, 2, 0, dest, dest);
    var m := Convert(env, messageType, b, dest).1;
    assert Reflects(env, messageType, b, 0, m);
    GoodFirst(env, messageType, node, dest, i, j);
    assert SameField(m, dest, node.entries[g].key.text);
  }

  lemma NeededIfBad(env: Env, messageType: string, node: Node, dest: Message, j: nat)
    requires node.Map? && Insensitive(env, messageType, node, dest) && j < |node.entries|
    requires Own(env, messageType, node.entries[j]).Bad?
    ensures OneFailure(env, messageType, node, dest, Own(env, messageType, node.entries[j]).error)
  {
    BadFirst(env, messageType, node, dest, j);
    forall i | 0 <= i < |node.entries|
      ensures || Own(env, messageType, node.entries[i]) == Own(env, messageType, node.entries[j])
              || Says(env, messageType, node.entries[i], dest)
    {
      if Own(env, messageType, node.entries[i]).Bad? {
        BadFirst(env, messageType, node, dest, i);
      } else {
        GoodFirst(env, messageType, node, dest, i, j);
      }
    }
    forall i: nat, k: nat | Repeat(node, i, k) && Own(env, messageType, node.entries[i]).Good?
      ensures Own(env, messageType, node.entries[j]).error == InvalidArgument
    {
      GoodFirst(env, messageType, node, dest, i, k);
    }
  }

  predicate AllOwnGood(env: Env, messageType: string, node: Node)
    requires node.Map?
  {
    forall i | 0 <= i < |node.entries| :: Own(env, messageType, node.entries[i]).Good?
  }

  lemma NeededIfOneRepeat(env: Env, messageType: string, node: Node, dest: Message, i: nat, j: nat)
    requires node.Map? && Insensitive(env, messageType, node, dest) && AllOwnGood(env, messageType, node)
    requires Repeat(node, i, j) && forall k: nat, l: nat | Repeat(node, k, l) :: node.entries[k].key == node.entries[i].key
    ensures node.entries[i].key.Scalar?
    ensures OneRepeat(env, messageType, node, dest, node.entries[i].key.text, Own(env, messageType, node.entries[i]).value)
  {
    GoodFirst(env, messageType, node, dest, i, j);
    forall g | 0 <= g < |node.entries|
      ensures if node.entries[g].key == node.entries[i].key
              then Own(env, messageType, node.entries[g]) == Own(env, messageType, node.entries[i])
              else Says(env, messageType, node.entries[g], dest)
    {
      if node.entries[g].key != node.entries[i].key {
        GoodBeforeRepeat(env, messageType, node, dest, g, i, j);
      } else if g != i {
        GoodFirst(env, messageType, node, dest, g, i);
      }
    }
  }

  lemma NeededIfTwoRepeats(env: Env, messageType: string, node: Node, dest: Message, i: nat, j: nat, k: nat, l: nat)
    requires node.Map? && Insensitive(env, messageType, node, dest) && AllOwnGood(env, messageType, node)
    requires Repeat(node, i, j) && Repeat(node, k, l) && node.entries[k].key != node.entries[i].key
    ensures OneFailure(env, messageType, node, dest, InvalidArgument)
  {
    forall g | 0 <= g < |node.entries| ensures Says(env, messageType, node.entries[g], dest) {
      if node.entries[g].key != node.entries[i].key {
        GoodBeforeRepeat(env, messageType, node, dest, g, i, j);
      } else {
        GoodBeforeRepeat(env, messageType, node, dest, g, k, l);
      }
    }
  }

  lemma BadOrRepeated(env: Env, messageType: string, node: Node) returns (i: nat, j: nat)
    requires node.Map? && !EntriesGood(env, messageType, node, 0) && AllOwnGood(env, messageType, node)
    ensures Repeat(node, i, j)
  {
    j :| 0 <= j < |node.entries| && EntryValue(env, messageType, node, j).Bad?;
    OwnMeans(env, messageType, node, j);
    i :| 0 <= i < j && node.entries[i].key == node.entries[j].key;
  }

  /** A map converts alike in every order of its entries if and only if all of them are good and no
      key is repeated; or all bad ones have one error and the others change nothing; or just one key
      is repeated, always with the same value, and the other entries are good and change nothing. */
  lemma OrderMatters(env: Env, messageType: string, node: Node, dest: Message)
    requires node.Map?
    ensures Insensitive(env, messageType, node, dest) <==>
              || EntriesGood(env, messageType, node, 0)
              || (exists error :: OneFailure(env, messageType, node, dest, error))
              || (exists name, value :: OneRepeat(env, messageType, node, dest, name, value))
  {
    if EntriesGood(env, messageType, node, 0) {
      forall b | Permuted(node, b) ensures Convert(env, messageType, b, dest) == Convert(env, messageType, node, dest) {
        GoodMoved(env, messageType, node, b, dest);
      }
    } else if error :| OneFailure(env, messageType, node, dest, error) {
      OneFailureOutcome(env, messageType, node, dest, error);
      forall b | Permuted(node, b) ensures Convert(env, messageType, b, dest) == Convert(env, messageType, node, dest) {
        GoodMoved(env, messageType, node, b, dest);
        OneFailureMoved(env, messageType, node, b, dest, error);
        OneFailureOutcome(env, messageType, b, dest, error);
      }
    } else if name, value :| OneRepeat(env, messageType, node, dest, name, value) {
      OneRepeatOutcome(env, messageType, node, dest, name, value);
      forall b | Permuted(node, b) ensures Convert(env, messageType, b, dest) == Convert(env, messageType, node, dest) {
        GoodMoved(env, messageType, node, b, dest);
        OneRepeatMoved(env, messageType, node, b, dest, name, value);
        OneRepeatOutcome(env, messageType, b, dest, name, value);
      }
    } else if Insensitive(env, messageType, node, dest) {
      Needed(env, messageType, node, dest);
    }
  }

  lemma Needed(env: Env, messageType: string, node: Node, dest: Message)
    requires node.Map? && Insensitive(env, messageType, node, dest) && !EntriesGood(env, messageType, node, 0)
    ensures || (exists error :: OneFailure(env, messageType, node, dest, error))
            || (exists name, value :: OneRepeat(env, messageType, node, dest, name, value))
  {
    if !AllOwnGood(env, messageType, node) {
      var j :| 0 <= j < |node.entries| && Own(env, messageType, node.entries[j]).Bad?;
      NeededIfBad(env, messageType, node, dest, j);
    } else {
      var i, j := BadOrRepeated(env, messageType, node);
      if k: nat, l: nat :| Repeat(node, k, l) && node.entries[k].key != node.entries[i].key {
        NeededIfTwoRepeats(env, messageType, node, dest, i, j, k, l);
      } else {
        NeededIfOneRepeat(env, messageType, node, dest, i, j);
      }
    }
  }

  /** Inputs where it matters: beside an entry that is refused, the outcomes of the two orders of an
      entry with a known key differ if and only if it fails with another error, or says something
      that the message does not hold. */
  lemma FailureDependsOnOrder(env: Env, messageType: string, e: Entry, dest: Message)
    requires e.key.Scalar? && e.key.text in FieldsOf(env, messageType)
    ensures var refused := Entry(Null, Null);
            && Shuffled(Map([e, refused]), Map([refused, e]))
            && Convert(env, messageType, Map([refused, e]), dest) == (Failed(InvalidArgument), dest)
            && (Convert(env, messageType, Map([e, refused]), dest) != (Failed(InvalidArgument), dest) <==>
                  && Own(env, messageType, e) != Bad(InvalidArgument) && !Says(env, messageType, e, dest))
  {
    var refused := Entry(Null, Null);
    var a, b := Map([e, refused]), Map([refused, e]);
    ShuffledSelf(e.value);
    assert Inverse([1, 0], [1, 0], 2) && Matched(a, b, [1, 0]);
    OwnMeans(env, messageType, a, 0);
    OwnMeans(env, messageType, a, 1);
    OwnMeans(env, messageType, b, 0);
    FailureFrom(env, messageType, b, 0, 0, dest, dest);
    SameFields(Convert(env, messageType, b, dest).1, dest);
    var own := Own(env, messageType, e);
    if own.Good? {
      FailureFrom(env, messageType, a, 1, 0, dest, dest);
      var m := Convert(env, messageType, a, dest).1;
      assert Reflects(env, messageType, a, 0, m);
      if Says(env, messageType, e, dest) {
        forall name ensures SameField(m, dest, name) {
        }
        SameFields(m, dest);
      }
    } else {
      FailureFrom(env, messageType, a, 0, 0, dest, dest);
      SameFields(Convert(env, messageType, a, dest).1, dest);
    }
  }
}
