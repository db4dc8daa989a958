/** kmsp11/config/protoyaml.cc: reading a YAML tree into a protocol buffer message. */
module Yaml {
  import opened Basics
  import opened Permutations

  datatype Entry = Entry(key: Node, value: Node)

  /** A parsed YAML document; the entries of a map come in document order. */
  datatype Node = Null | Scalar(text: string) | Sequence(items: seq<Node>) | Map(entries: seq<Entry>)

  datatype Kind = StringKind | UInt32Kind | BoolKind | MessageKind(messageType: string) | OtherKind

  datatype Field = Field(kind: Kind, repeated: bool)

  datatype Value =
    | StringValue(s: string) | UInt32Value(n: nat) | BoolValue(b: bool) | MessageValue(m: Message)
    | StringsValue(ss: seq<string>) | MessagesValue(ms: seq<Message>)

  /** Fields of one scalar value and repeated fields always have a value, as in proto3 without
      `optional`: setting one to its default is leaving it alone. Fields of one message may be absent. */
  datatype Message = Message(fields: map<string, Value>)

  datatype Status = OK | Failed(error: Error)

  datatype Error = InvalidArgument | Internal

  datatype Result<+T> = Good(value: T) | Bad(error: Error)

  /** The message descriptors, and the library's number and boolean parsers. */
  datatype Env = Env(
    descriptors: map<string, map<string, Field>>,
    simpleAtoi: string -> Option<nat>,
    simpleAtob: string -> Option<bool>)

  function FieldsOf(env: Env, messageType: string): map<string, Field> {
    if messageType in env.descriptors then env.descriptors[messageType] else map[]
  }

  /** The value of a field that nobody has set; None if it is absent then, or of a kind that cannot
      be set at all. */
  function Default(field: Field): Option<Value> {
    match field.kind
    case StringKind => Some(if field.repeated then StringsValue([]) else StringValue(""))
    case UInt32Kind => if field.repeated then None else Some(UInt32Value(0))
    case BoolKind => if field.repeated then None else Some(BoolValue(false))
    case MessageKind(_) => if field.repeated then Some(MessagesValue([])) else None
    case OtherKind => None
  }

  /** A new message. */
  function Fresh(env: Env, messageType: string): Message {
    var fields := FieldsOf(env, messageType);
    Message(map name | name in fields && Default(fields[name]).Some? :: Default(fields[name]).value)
  }

  /** Every field that always has a value has one. */
  predicate Complete(env: Env, messageType: string, m: Message) {
    Fresh(env, messageType).fields.Keys <= m.fields.Keys
  }

  // ---------------------------------------------------------------------------------------
  // The conversion as a function
  // ---------------------------------------------------------------------------------------

  function ScalarValue(env: Env, kind: Kind, node: Node): Result<Value> {
    if !node.Scalar? then Bad(InvalidArgument)
    else match kind
      case StringKind => Good(StringValue(node.text))
      case UInt32Kind =>
        (match env.simpleAtoi(node.text) case Some(n) => Good(UInt32Value(n)) case None => Bad(InvalidArgument))
      case BoolKind =>
        (match env.simpleAtob(node.text) case Some(b) => Good(BoolValue(b)) case None => Bad(InvalidArgument))
      case _ => Bad(Internal)
  }

  /** `done` followed by what is still to come, if all goes well. */
  function Prepend<T>(done: seq<T>, rest: Result<seq<T>>): Result<seq<T>> {
    match rest case Good(s) => Good(done + s) case Bad(error) => Bad(error)
  }

  /** The texts of items i, i + 1, ... of a sequence. */
  function Texts(items: seq<Node>, i: nat): Result<seq<string>>
    requires i <= |items|
    decreases |items| - i
  {
    if i == |items| then Good([])
    else if !items[i].Scalar? then Bad(InvalidArgument)
    else Prepend([items[i].text], Texts(items, i + 1))
  }

  /** Items i, i + 1, ... of sequence `node`, each converted into a new message. */
  function Children(env: Env, messageType: string, node: Node, i: nat): Result<seq<Message>>
    requires node.Sequence? && i <= |node.items|
    decreases node, 1, |node.items| - i
  {
    if i == |node.items| then Good([])
    else match Convert(env, messageType, node.items[i], Fresh(env, messageType))
      case (OK, child) => Prepend([child], Children(env, messageType, node, i + 1))
      case (Failed(error), _) => Bad(error)
  }

  /** What `node` says about a field. The message that the field is in has no influence. */
  function FieldValue(env: Env, field: Field, node: Node): Result<Value>
    decreases node, 3
  {
    if field.repeated then
      if !node.Sequence? then Bad(InvalidArgument)
      else match field.kind
        case MessageKind(messageType) =>
          (match Children(env, messageType, node, 0)
           case Good(children) => Good(MessagesValue(children))
           case Bad(error) => Bad(error))
        case StringKind =>
          (match Texts(node.items, 0)
           case Good(texts) => Good(StringsValue(texts))
           case Bad(error) => Bad(error))
        case _ => Bad(Internal)
    else match field.kind
      case MessageKind(messageType) =>
        (match Convert(env, messageType, node, Fresh(env, messageType))
         case (OK, child) => Good(MessageValue(child))
         case (Failed(error), _) => Bad(error))
      case kind => ScalarValue(env, kind, node)
  }

  predicate SeenBefore(entries: seq<Entry>, i: nat)
    requires i < |entries|
  {
    exists j | 0 <= j < i :: entries[j].key == entries[i].key
  }

  /** The conversion of entry i on its own. */
  function EntryValue(env: Env, messageType: string, node: Node, i: nat): Result<Value>
    requires node.Map? && i < |node.entries|
    decreases node, 0, 0
  {
    var Entry(key, value) := node.entries[i];
    if !key.Scalar? || SeenBefore(node.entries, i) || key.text !in FieldsOf(env, messageType) then Bad(InvalidArgument)
    else FieldValue(env, FieldsOf(env, messageType)[key.text], value)
  }

  /** Entries i, i + 1, ... of map `node` applied to `dest` up to the first bad one. */
  function ConvertFrom(env: Env, messageType: string, node: Node, i: nat, dest: Message): (Status, Message)
    requires node.Map? && i <= |node.entries|
    decreases node, 1, |node.entries| - i
  {
    if i == |node.entries| then (OK, dest)
    else match EntryValue(env, messageType, node, i)
      case Bad(error) => (Failed(error), dest)
      case Good(value) => ConvertFrom(env, messageType, node, i + 1, Message(dest.fields[node.entries[i].key.text := value]))
  }

  /** YamlToProto: the status, and the message that `dest` has become. */
  function Convert(env: Env, messageType: string, node: Node, dest: Message): (Status, Message)
    decreases node, 2
  {
    match node
    case Null => (OK, dest)
    case Map(entries) => ConvertFrom(env, messageType, node, 0, dest)
    case _ => (Failed(InvalidArgument), dest)
  }

  // ---------------------------------------------------------------------------------------
  // What a conversion does
  // ---------------------------------------------------------------------------------------

  ghost predicate EntriesGood(env: Env, messageType: string, node: Node, from: nat)
    requires node.Map?
  {
    forall i | from <= i < |node.entries| :: EntryValue(env, messageType, node, i).Good?
  }

  /** In `m`, the field of entry i holds exactly what that entry says. */
  ghost predicate Reflects(env: Env, messageType: string, node: Node, i: nat, m: Message)
    requires node.Map? && i < |node.entries|
  {
    var key := node.entries[i].key;
    key.Scalar? && key.text in m.fields && EntryValue(env, messageType, node, i) == Good(m.fields[key.text])
  }

  predicate SameField(m: Message, m': Message, name: string) {
    && (name in m.fields <==> name in m'.fields)
    && (name in m.fields ==> m.fields[name] == m'.fields[name])
  }

  /** Field `name` of `m` is as in `dest`, or it is all that one entry from `from` on says. */
  ghost predicate Whole(env: Env, messageType: string, node: Node, from: nat, dest: Message, m: Message, name: string)
    requires node.Map?
  {
    || SameField(m, dest, name)
    || exists k :: from <= k < |node.entries| && node.entries[k].key == Scalar(name) && Reflects(env, messageType, node, k, m)
  }

  lemma {:induction false} ConvertFromMeans(env: Env, messageType: string, node: Node, i: nat, dest: Message)
    requires node.Map? && i <= |node.entries|
    ensures var (status, m) := ConvertFrom(env, messageType, node, i, dest);
            && (status == OK <==> EntriesGood(env, messageType, node, i))
            && (status == OK ==> forall k | i <= k < |node.entries| :: Reflects(env, messageType, node, k, m))
            && forall name :: Whole(env, messageType, node, i, dest, m, name)
    decreases |node.entries| - i
  {
    if i < |node.entries| && EntryValue(env, messageType, node, i).Good? {
      var key := node.entries[i].key;
      var next := Message(dest.fields[key.text := EntryValue(env, messageType, node, i).value]);
      ConvertFromMeans(env, messageType, node, i + 1, next);
      var (status, m) := ConvertFrom(env, messageType, node, i + 1, next);
      assert SameField(m, next, key.text) by {
        assert Whole(env, messageType, node, i + 1, next, m, key.text);
      }
      assert Reflects(env, messageType, node, i, m);
      forall name ensures Whole(env, messageType, node, i, dest, m, name) {
        assert Whole(env, messageType, node, i + 1, next, m, name);
      }
    }
  }

  /** Entry i has a scalar key that names a field of the message. */
  predicate Known(env: Env, messageType: string, node: Node, i: nat)
    requires node.Map? && i < |node.entries|
  {
    node.entries[i].key.Scalar? && node.entries[i].key.text in FieldsOf(env, messageType)
  }

  /** What entry i says about the field it names. */
  function Said(env: Env, messageType: string, node: Node, i: nat): Result<Value>
    requires node.Map? && i < |node.entries| && Known(env, messageType, node, i)
  {
    FieldValue(env, FieldsOf(env, messageType)[node.entries[i].key.text], node.entries[i].value)
  }

  /** A document is acceptable if it is null, or a map with pairwise different scalar keys that name
      fields of the message, each with a value that suits its field. */
  ghost predicate Acceptable(env: Env, messageType: string, node: Node) {
    || node.Null?
    || (&& node.Map?
        && (forall i | 0 <= i < |node.entries| ::
              Known(env, messageType, node, i) && Said(env, messageType, node, i).Good?)
        && (forall i, j | 0 <= i < |node.entries| && 0 <= j < |node.entries| && i != j ::
              node.entries[i].key != node.entries[j].key))
  }

  lemma EntryMeans(env: Env, messageType: string, node: Node, i: nat)
    requires node.Map? && i < |node.entries|
    ensures EntryValue(env, messageType, node, i) ==
            if Known(env, messageType, node, i) && !SeenBefore(node.entries, i) then Said(env, messageType, node, i)
            else Bad(InvalidArgument)
  {
  }

  lemma AcceptableEntries(env: Env, messageType: string, node: Node)
    requires node.Map?
    ensures Acceptable(env, messageType, node) <==> EntriesGood(env, messageType, node, 0)
  {
    forall i | 0 <= i < |node.entries|
      ensures EntryValue(env, messageType, node, i).Good? <==>
              Known(env, messageType, node, i) && !SeenBefore(node.entries, i) && Said(env, messageType, node, i).Good?
    {
      EntryMeans(env, messageType, node, i);
    }
    if EntriesGood(env, messageType, node, 0) {
      forall i, j | 0 <= i < j < |node.entries| ensures node.entries[i].key != node.entries[j].key {
        assert EntryValue(env, messageType, node, j).Good?;
      }
    }
  }

  /** `m` is `dest` with just the fields that map `node` names set, each to just what it says. */
  ghost predicate Overlaid(env: Env, messageType: string, node: Node, dest: Message, m: Message)
    requires node.Map?
  {
    && (forall i | 0 <= i < |node.entries| ::
          && Known(env, messageType, node, i) && node.entries[i].key.text in m.fields
          && Said(env, messageType, node, i) == Good(m.fields[node.entries[i].key.text]))
    && (forall name :: SameField(m, dest, name) || exists i | 0 <= i < |node.entries| :: node.entries[i].key == Scalar(name))
  }

  /** A conversion succeeds exactly on an acceptable document, which it overlays on the message.
      Whatever the outcome, it leaves a field alone or replaces it as a whole. */
  lemma ConvertMeans(env: Env, messageType: string, node: Node, dest: Message)
    ensures var (status, m) := Convert(env, messageType, node, dest);
            && (status == OK <==> Acceptable(env, messageType, node))
            && (!node.Map? ==> m == dest)
            && (node.Map? && status == OK ==> Overlaid(env, messageType, node, dest, m))
            && (node.Map? ==> forall name :: Whole(env, messageType, node, 0, dest, m, name))
  {
    if node.Map? {
      ConvertFromMeans(env, messageType, node, 0, dest);
      AcceptableEntries(env, messageType, node);
      var (status, m) := Convert(env, messageType, node, dest);
      if status == OK {
        forall i | 0 <= i < |node.entries|
          ensures && Known(env, messageType, node, i) && node.entries[i].key.text in m.fields
                  && Said(env, messageType, node, i) == Good(m.fields[node.entries[i].key.text])
        {
          assert Reflects(env, messageType, node, i, m);
          EntryMeans(env, messageType, node, i);
        }
        forall name ensures SameField(m, dest, name) || exists i | 0 <= i < |node.entries| :: node.entries[i].key == Scalar(name) {
          assert Whole(env, messageType, node, 0, dest, m, name);
        }
      }
    }
  }

  /** Conversions keep a message complete. */
  lemma ConvertKeepsComplete(env: Env, messageType: string, node: Node, dest: Message)
    requires Complete(env, messageType, dest)
    ensures Complete(env, messageType, Convert(env, messageType, node, dest).1)
  {
    ConvertMeans(env, messageType, node, dest);
    var m := Convert(env, messageType, node, dest).1;
    forall name | name in dest.fields ensures name in m.fields {
      assert node.Map? ==> Whole(env, messageType, node, 0, dest, m, name);
    }
  }

  // ---------------------------------------------------------------------------------------
  // Order independence
  // ---------------------------------------------------------------------------------------

  ghost predicate Matched(a: Node, b: Node, p: seq<nat>)
    requires a.Map? && b.Map? && |p| == |a.entries| && forall i | 0 <= i < |p| :: p[i] < |b.entries|
    decreases a, 0
  {
    forall i | 0 <= i < |p| ::
      Shuffled(a.entries[i].key, b.entries[p[i]].key) && Shuffled(a.entries[i].value, b.entries[p[i]].value)
  }

  /** `b` is `a` with the entries of maps permuted, at any depth. */
  ghost predicate Shuffled(a: Node, b: Node)
    decreases a, 1
  {
    match a
    case Null => b == a
    case Scalar(_) => b == a
    case Sequence(items) =>
      b.Sequence? && |b.items| == |items| && forall i | 0 <= i < |items| :: Shuffled(items[i], b.items[i])
    case Map(entries) =>
      b.Map? && |b.entries| == |entries| && exists p, q :: Inverse(p, q, |entries|) && Matched(a, b, p)
  }

  predicate SameOutcome<T(==)>(r: Result<T>, r': Result<T>) { (r.Good? <==> r'.Good?) && (r.Good? ==> r == r') }

  /** Entry i of `a` and entry j of `b` name the same field and say the same about it. */
  predicate Alike(env: Env, messageType: string, a: Node, i: nat, b: Node, j: nat)
    requires a.Map? && b.Map? && i < |a.entries| && j < |b.entries|
  {
    && (Known(env, messageType, a, i) <==> Known(env, messageType, b, j))
    && (Known(env, messageType, a, i) ==>
          a.entries[i].key == b.entries[j].key && SameOutcome(Said(env, messageType, a, i), Said(env, messageType, b, j)))
  }

  ghost predicate Corresponds(env: Env, messageType: string, a: Node, b: Node, p: seq<nat>, q: seq<nat>)
    requires a.Map? && b.Map?
  {
    && |a.entries| == |b.entries| && Inverse(p, q, |a.entries|)
    && forall i | 0 <= i < |p| :: Alike(env, messageType, a, i, b, p[i])
  }

  lemma CorrespondsBack(env: Env, messageType: string, a: Node, b: Node, p: seq<nat>, q: seq<nat>)
    requires a.Map? && b.Map? && Corresponds(env, messageType, a, b, p, q)
    ensures Corresponds(env, messageType, b, a, q, p)
  {
  }

  lemma AcceptableCarries(env: Env, messageType: string, a: Node, b: Node, p: seq<nat>, q: seq<nat>)
    requires a.Map? && b.Map? && Corresponds(env, messageType, a, b, p, q) && Acceptable(env, messageType, a)
    ensures Acceptable(env, messageType, b)
  {
    forall j | 0 <= j < |b.entries|
      ensures Known(env, messageType, b, j) && Said(env, messageType, b, j).Good? && b.entries[j].key == a.entries[q[j]].key
    {
      assert Alike(env, messageType, a, q[j], b, p[q[j]]);
    }
  }

  lemma OverlaidCarries(env: Env, messageType: string, a: Node, b: Node, p: seq<nat>, q: seq<nat>, dest: Message, m: Message)
    requires a.Map? && b.Map? && Corresponds(env, messageType, a, b, p, q) && Overlaid(env, messageType, a, dest, m)
    ensures Overlaid(env, messageType, b, dest, m)
  {
    forall j | 0 <= j < |b.entries|
      ensures && Known(env, messageType, b, j) && b.entries[j].key.text in m.fields
              && Said(env, messageType, b, j) == Good(m.fields[b.entries[j].key.text])
    {
      assert Alike(env, messageType, a, q[j], b, p[q[j]]);
    }
    forall name ensures SameField(m, dest, name) || exists j | 0 <= j < |b.entries| :: b.entries[j].key == Scalar(name) {
      if !SameField(m, dest, name) {
        var i :| 0 <= i < |a.entries| && a.entries[i].key == Scalar(name);
        assert Alike(env, messageType, a, i, b, p[i]);
      }
    }
  }

  lemma SameFields(m: Message, m': Message)
    requires forall name :: SameField(m, m', name)
    ensures m == m'
  {
    forall name ensures name in m.fields <==> name in m'.fields {
      assert SameField(m, m', name);
    }
    forall name | name in m.fields ensures m.fields[name] == m'.fields[name] {
      assert SameField(m, m', name);
    }
    assert m.fields == m'.fields;
  }

  lemma OverlaidUnique(env: Env, messageType: string, node: Node, dest: Message, m: Message, m': Message)
    requires node.Map? && Overlaid(env, messageType, node, dest, m) && Overlaid(env, messageType, node, dest, m')
    ensures m == m'
  {
    forall name ensures SameField(m, m', name) {
      if i :| 0 <= i < |node.entries| && node.entries[i].key == Scalar(name) {
        assert Known(env, messageType, node, i);
      } else {
        assert SameField(m, dest, name) && SameField(m', dest, name);
      }
    }
    SameFields(m, m');
  }

  lemma {:induction false} EntriesCorrespond(env: Env, messageType: string, a: Node, b: Node) returns (p: seq<nat>, q: seq<nat>)
    requires a.Map? && Shuffled(a, b)
    ensures Corresponds(env, messageType, a, b, p, q)
    decreases a, 0
  {
    p, q :| Inverse(p, q, |a.entries|) && Matched(a, b, p);
    forall i | 0 <= i < |p| ensures Alike(env, messageType, a, i, b, p[i]) {
      var x, y := a.entries[i], b.entries[p[i]];
      assert Shuffled(x.key, y.key) && Shuffled(x.value, y.value);
      if Known(env, messageType, a, i) {
        FieldOrderIndependent(env, FieldsOf(env, messageType)[x.key.text], x.value, y.value);
      }
    }
  }

  /** Permuting the entries of maps, at any depth, changes neither whether a conversion succeeds nor
      the message it then results in. */
  lemma {:induction false} OrderIndependent(env: Env, messageType: string, a: Node, b: Node, dest: Message)
    requires Shuffled(a, b)
    ensures var (status, m), (status', m') := Convert(env, messageType, a, dest), Convert(env, messageType, b, dest);
            (status == OK <==> status' == OK) && (status == OK ==> m == m')
    decreases a, 1
  {
    ConvertMeans(env, messageType, a, dest);
    ConvertMeans(env, messageType, b, dest);
    if a.Map? {
      var p, q := EntriesCorrespond(env, messageType, a, b);
      CorrespondsBack(env, messageType, a, b, p, q);
      if Acceptable(env, messageType, a) {
        AcceptableCarries(env, messageType, a, b, p, q);
        var m, m' := Convert(env, messageType, a, dest).1, Convert(env, messageType, b, dest).1;
        OverlaidCarries(env, messageType, a, b, p, q, dest, m);
        OverlaidUnique(env, messageType, b, dest, m, m');
      } else if Acceptable(env, messageType, b) {
        AcceptableCarries(env, messageType, b, a, q, p);
      }
    }
  }

  lemma {:induction false} ChildrenOrderIndependent(env: Env, messageType: string, a: Node, b: Node, i: nat)
    requires a.Sequence? && Shuffled(a, b) && i <= |a.items|
    ensures SameOutcome(Children(env, messageType, a, i), Children(env, messageType, b, i))
    decreases a, 2, |a.items| - i
  {
    if i < |a.items| {
      OrderIndependent(env, messageType, a.items[i], b.items[i], Fresh(env, messageType));
      ChildrenOrderIndependent(env, messageType, a, b, i + 1);
    }
  }

  lemma {:induction false} TextsOrderIndependent(a: Node, b: Node, i: nat)
    requires a.Sequence? && Shuffled(a, b) && i <= |a.items|
    ensures SameOutcome(Texts(a.items, i), Texts(b.items, i))
    decreases |a.items| - i
  {
    if i < |a.items| {
      assert Shuffled(a.items[i], b.items[i]);
      TextsOrderIndependent(a, b, i + 1);
    }
  }

  lemma {:induction false} FieldOrderIndependent(env: Env, field: Field, a: Node, b: Node)
    requires Shuffled(a, b)
    ensures SameOutcome(FieldValue(env, field, a), FieldValue(env, field, b))
    decreases a, 3
  {
    if field.kind.MessageKind? && !field.repeated {
      OrderIndependent(env, field.kind.messageType, a, b, Fresh(env, field.kind.messageType));
    } else if field.repeated && a.Sequence? {
      if field.kind.MessageKind? {
        ChildrenOrderIndependent(env, field.kind.messageType, a, b, 0);
      } else {
        TextsOrderIndependent(a, b, 0);
      }
    }
  }

  lemma {:induction false} ShuffledSelf(a: Node)
    ensures Shuffled(a, a)
  {
    match a
    case Null =>
    case Scalar(_) =>
    case Sequence(items) =>
      forall i | 0 <= i < |items| ensures Shuffled(items[i], items[i]) {
        ShuffledSelf(items[i]);
      }
    case Map(entries) =>
      var p := Identity(|entries|);
      forall i | 0 <= i < |p| ensures Shuffled(entries[i].key, entries[i].key) && Shuffled(entries[i].value, entries[i].value) {
        ShuffledSelf(entries[i].key);
        ShuffledSelf(entries[i].value);
      }
      assert Inverse(p, p, |entries|) && Matched(a, a, p);
  }

  // ---------------------------------------------------------------------------------------
  // The conversion in place
  // ---------------------------------------------------------------------------------------

  class ProtoMessage {
    var fields: map<string, Value>

    constructor (env: Env, messageType: string)
      ensures Message(fields) == Fresh(env, messageType)
    {
      fields := Fresh(env, messageType).fields;
    }
  }

  /** Setting field `name` to the outcome of a conversion: all of it, or nothing on failure. */
  predicate Set(r: Result<Value>, name: string, before: map<string, Value>, status: Status, after: map<string, Value>) {
    match r
    case Good(value) => status == OK && after == before[name := value]
    case Bad(error) => status == Failed(error) && after == before
  }

  method SetScalarField(env: Env, dest: ProtoMessage, name: string, kind: Kind, node: Node) returns (status: Status)
    modifies dest
    ensures Set(ScalarValue(env, kind, node), name, old(dest.fields), status, dest.fields)
  {
    if !node.Scalar? {
      return Failed(InvalidArgument);
    }
    match kind
    case StringKind =>
      dest.fields := dest.fields[name := StringValue(node.text)];
      status := OK;
    case UInt32Kind =>
      var n := env.simpleAtoi(node.text);
      if n.None? {
        return Failed(InvalidArgument);
      }
      dest.fields := dest.fields[name := UInt32Value(n.value)];
      status := OK;
    case BoolKind =>
      var b := env.simpleAtob(node.text);
      if b.None? {
        return Failed(InvalidArgument);
      }
      dest.fields := dest.fields[name := BoolValue(b.value)];
      status := OK;
    case _ => status := Failed(Internal);
  }

  lemma PrependNone<T>(rest: Result<seq<T>>)
    ensures Prepend([], rest) == rest
  {
    if rest.Good? {
      assert [] + rest.value == rest.value;
    }
  }

  lemma PrependMore<T>(done: seq<T>, x: T, rest: Result<seq<T>>)
    ensures Prepend(done, Prepend([x], rest)) == Prepend(done + [x], rest)
  {
    if rest.Good? {
      assert done + ([x] + rest.value) == done + [x] + rest.value;
    }
  }

  method SetRepeatedField(env: Env, dest: ProtoMessage, name: string, kind: Kind, node: Node) returns (status: Status)
    modifies dest
    ensures Set(FieldValue(env, Field(kind, true), node), name, old(dest.fields), status, dest.fields)
    decreases node, 1
  {
    if !node.Sequence? {
      return Failed(InvalidArgument);
    }
    match kind
    case MessageKind(messageType) =>
      var children := [];
      PrependNone(Children(env, messageType, node, 0));
      for i := 0 to |node.items|
        invariant dest.fields == old(dest.fields)
        invariant Prepend(children, Children(env, messageType, node, i)) == Children(env, messageType, node, 0)
      {
        var child := new ProtoMessage(env, messageType);
        status := YamlToProto(env, messageType, node.items[i], child);
        if status != OK {
          return;
        }
        PrependMore(children, Message(child.fields), Children(env, messageType, node, i + 1));
        children := children + [Message(child.fields)];
      }
      assert children + [] == children;
      dest.fields := dest.fields[name := MessagesValue(children)];
      status := OK;
    case StringKind =>
      var texts := [];
      PrependNone(Texts(node.items, 0));
      for i := 0 to |node.items|
        invariant dest.fields == old(dest.fields)
        invariant Prepend(texts, Texts(node.items, i)) == Texts(node.items, 0)
      {
        if !node.items[i].Scalar? {
          return Failed(InvalidArgument);
        }
        PrependMore(texts, node.items[i].text, Texts(node.items, i + 1));
        texts := texts + [node.items[i].text];
      }
      assert texts + [] == texts;
      dest.fields := dest.fields[name := StringsValue(texts)];
      status := OK;
    case _ => status := Failed(Internal);
  }

  method SetField(env: Env, dest: ProtoMessage, name: string, field: Field, node: Node) returns (status: Status)
    modifies dest
    ensures Set(FieldValue(env, field, node), name, old(dest.fields), status, dest.fields)
    decreases node, 2
  {
    if field.repeated {
      status := SetRepeatedField(env, dest, name, field.kind, node);
    } else if field.kind.MessageKind? {
      var child := new ProtoMessage(env, field.kind.messageType);
      status := YamlToProto(env, field.kind.messageType, node, child);
      if status == OK {
        dest.fields := dest.fields[name := MessageValue(Message(child.fields))];
      }
    } else {
      status := SetScalarField(env, dest, name, field.kind, node);
    }
  }

  method YamlToProto(env: Env, messageType: string, node: Node, dest: ProtoMessage) returns (status: Status)
    modifies dest
    ensures (status, Message(dest.fields)) == Convert(env, messageType, node, Message(old(dest.fields)))
    decreases node, 0
  {
    if node.Null? {
      return OK;
    }
    if !node.Map? {
      return Failed(InvalidArgument);
    }
    var keysSeen: set<string> := {};
    for i := 0 to |node.entries|
      invariant forall j | 0 <= j < i :: node.entries[j].key.Scalar? && node.entries[j].key.text in keysSeen
      invariant forall text | text in keysSeen :: exists j | 0 <= j < i :: node.entries[j].key == Scalar(text)
      invariant ConvertFrom(env, messageType, node, i, Message(dest.fields)) ==
                Convert(env, messageType, node, Message(old(dest.fields)))
    {
      EntryMeans(env, messageType, node, i);
      var Entry(key, value) := node.entries[i];
      if !key.Scalar? {
        return Failed(InvalidArgument);
      }
      if key.text in keysSeen {
        return Failed(InvalidArgument);
      }
      keysSeen := keysSeen + {key.text};
      if key.text !in FieldsOf(env, messageType) {
        return Failed(InvalidArgument);
      }
      status := SetField(env, dest, key.text, FieldsOf(env, messageType)[key.text], value);
      if status != OK {
        return;
      }
    }
    status := OK;
  }
}
