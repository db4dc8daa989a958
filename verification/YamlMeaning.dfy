/** What a message says after a YAML conversion (kmsp11/config/protoyaml.cc), field by field: a
    relation between documents and messages that says nothing about how to get from one to the
    other. */
module YamlMeaning {
  import opened Basics
  import opened Yaml

  /** A new message: texts empty, numbers zero, flags false, lists empty, and nothing else. */
  lemma BlankField(env: Env, messageType: string, name: string)
    ensures var fields, m := FieldsOf(env, messageType), Fresh(env, messageType);
            if name !in fields then name !in m.fields
            else match fields[name]
              case Field(StringKind, false) => name in m.fields && m.fields[name] == StringValue("")
              case Field(UInt32Kind, false) => name in m.fields && m.fields[name] == UInt32Value(0)
              case Field(BoolKind, false) => name in m.fields && m.fields[name] == BoolValue(false)
              case Field(StringKind, true) => name in m.fields && m.fields[name] == StringsValue([])
              case Field(MessageKind(_), true) => name in m.fields && m.fields[name] == MessagesValue([])
              case _ => name !in m.fields
  {
  }

  /** `m` is `dest` after reading `node`: each key of the map names a field, whose value in `m` is what
      the entry says, and all other fields are as in `dest`. */
  ghost predicate Denotes(env: Env, messageType: string, node: Node, dest: Message, m: Message)
    decreases node, 1
  {
    match node
    case Null => m == dest
    case Map(entries) =>
      && (forall i | 0 <= i < |entries| :: EntryDenotes(env, messageType, node, i, m))
      && (forall i, j | 0 <= i < |entries| && 0 <= j < |entries| && i != j :: entries[i].key != entries[j].key)
      && (forall name :: SameField(m, dest, name) || exists i | 0 <= i < |entries| :: entries[i].key == Scalar(name))
    case _ => false
  }

  ghost predicate EntryDenotes(env: Env, messageType: string, node: Node, i: nat, m: Message)
    requires node.Map? && i < |node.entries|
    decreases node, 0
  {
    var Entry(key, value) := node.entries[i];
    && key.Scalar? && key.text in FieldsOf(env, messageType) && key.text in m.fields
    && Says(env, FieldsOf(env, messageType)[key.text], value, m.fields[key.text])
  }

  /** `value` is what `node` says about a field of this type. */
  ghost predicate Says(env: Env, field: Field, node: Node, value: Value)
    decreases node, 3
  {
    match field
    case Field(StringKind, false) => value.StringValue? && node == Scalar(value.s)
    case Field(UInt32Kind, false) => value.UInt32Value? && node.Scalar? && env.simpleAtoi(node.text) == Some(value.n)
    case Field(BoolKind, false) => value.BoolValue? && node.Scalar? && env.simpleAtob(node.text) == Some(value.b)
    case Field(MessageKind(t), false) => value.MessageValue? && Denotes(env, t, node, Fresh(env, t), value.m)
    case Field(StringKind, true) => value.StringsValue? && node.Sequence? && TextsDenote(node, 0, value.ss)
    case Field(MessageKind(t), true) => value.MessagesValue? && node.Sequence? && ItemsDenote(env, t, node, 0, value.ms)
    case _ => false
  }

  /** One text for each item from i on, in order. */
  predicate TextsDenote(node: Node, i: nat, texts: seq<string>)
    requires node.Sequence?
  {
    i + |texts| == |node.items| && forall k | 0 <= k < |texts| :: node.items[i + k] == Scalar(texts[k])
  }

  /** One message for each item from i on, in order. */
  ghost predicate ItemsDenote(env: Env, messageType: string, node: Node, i: nat, ms: seq<Message>)
    requires node.Sequence?
    decreases node, 2
  {
    i + |ms| == |node.items| && forall k | 0 <= k < |ms| :: ItemDenotes(env, messageType, node, i + k, ms[k])
  }

  ghost predicate ItemDenotes(env: Env, messageType: string, node: Node, k: nat, m: Message)
    requires node.Sequence? && k < |node.items|
    decreases node, 1
  {
    Denotes(env, messageType, node.items[k], Fresh(env, messageType), m)
  }

  // ---------------------------------------------------------------------------------------
  // The conversion finds exactly that message
  // ---------------------------------------------------------------------------------------

  lemma {:induction false} TextsExactly(node: Node, i: nat, texts: seq<string>)
    requires node.Sequence? && i <= |node.items|
    ensures Texts(node.items, i) == Good(texts) <==> TextsDenote(node, i, texts)
    decreases |node.items| - i
  {
    if i < |node.items| && texts != [] {
      TextsExactly(node, i + 1, texts[1..]);
      assert texts == [texts[0]] + texts[1..];
      if TextsDenote(node, i, texts) {
        assert node.items[i + 0] == Scalar(texts[0]);
        forall k | 0 <= k < |texts[1..]| ensures node.items[i + 1 + k] == Scalar(texts[1..][k]) {
          assert node.items[i + (k + 1)] == Scalar(texts[k + 1]);
        }
      }
      if TextsDenote(node, i + 1, texts[1..]) && node.items[i] == Scalar(texts[0]) {
        forall k | 0 <= k < |texts| ensures node.items[i + k] == Scalar(texts[k]) {
          if k > 0 {
            assert node.items[i + 1 + (k - 1)] == Scalar(texts[1..][k - 1]);
          }
        }
      }
    }
  }

  lemma {:induction false} ItemsExactly(env: Env, messageType: string, node: Node, i: nat, ms: seq<Message>)
    requires node.Sequence? && i <= |node.items|
    ensures Children(env, messageType, node, i) == Good(ms) <==> ItemsDenote(env, messageType, node, i, ms)
    decreases node, 0, |node.items| - i
  {
    if i < |node.items| && ms != [] {
      ItemsExactly(env, messageType, node, i + 1, ms[1..]);
      ConvertExactly(env, messageType, node.items[i], Fresh(env, messageType), ms[0]);
      assert ms == [ms[0]] + ms[1..];
      FirstItem(env, messageType, node, i, ms);
    }
  }

  lemma FirstItem(env: Env, messageType: string, node: Node, i: nat, ms: seq<Message>)
    requires node.Sequence? && i < |node.items| && ms != []
    ensures ItemsDenote(env, messageType, node, i, ms) <==>
              && Denotes(env, messageType, node.items[i], Fresh(env, messageType), ms[0])
              && ItemsDenote(env, messageType, node, i + 1, ms[1..])
  {
    if ItemsDenote(env, messageType, node, i, ms) {
      assert ItemDenotes(env, messageType, node, i + 0, ms[0]);
      forall k | 0 <= k < |ms[1..]| ensures ItemDenotes(env, messageType, node, i + 1 + k, ms[1..][k]) {
        assert ItemDenotes(env, messageType, node, i + (k + 1), ms[k + 1]);
      }
    }
    if Denotes(env, messageType, node.items[i], Fresh(env, messageType), ms[0]) && ItemsDenote(env, messageType, node, i + 1, ms[1..]) {
      forall k | 0 <= k < |ms| ensures i + k < |node.items| && ItemDenotes(env, messageType, node, i + k, ms[k]) {
        if k > 0 {
          assert ItemDenotes(env, messageType, node, i + 1 + (k - 1), ms[1..][k - 1]);
        }
      }
    }
  }

  lemma {:induction false} FieldExactly(env: Env, field: Field, node: Node, value: Value)
    ensures FieldValue(env, field, node) == Good(value) <==> Says(env, field, node, value)
    decreases node, 3
  {
    match field
    case Field(MessageKind(t), false) =>
      if value.MessageValue? {
        ConvertExactly(env, t, node, Fresh(env, t), value.m);
      }
    case Field(StringKind, true) =>
      if value.StringsValue? && node.Sequence? {
        TextsExactly(node, 0, value.ss);
      }
    case Field(MessageKind(t), true) =>
      if value.MessagesValue? && node.Sequence? {
        ItemsExactly(env, t, node, 0, value.ms);
      }
    case _ =>
  }

  lemma {:induction false} EntryExactly(env: Env, messageType: string, node: Node, i: nat, m: Message)
    requires node.Map? && i < |node.entries|
    ensures EntryDenotes(env, messageType, node, i, m) <==>
              && Known(env, messageType, node, i) && node.entries[i].key.text in m.fields
              && Said(env, messageType, node, i) == Good(m.fields[node.entries[i].key.text])
    decreases node, 0
  {
    var Entry(key, value) := node.entries[i];
    if Known(env, messageType, node, i) && key.text in m.fields {
      FieldExactly(env, FieldsOf(env, messageType)[key.text], value, m.fields[key.text]);
    }
  }

  /** A conversion succeeds with message `m` if and only if the document, read into `dest`, means `m`. */
  lemma {:induction false} ConvertExactly(env: Env, messageType: string, node: Node, dest: Message, m: Message)
    ensures Convert(env, messageType, node, dest) == (OK, m) <==> Denotes(env, messageType, node, dest, m)
    decreases node, 1
  {
    ConvertMeans(env, messageType, node, dest);
    if node.Map? {
      forall i | 0 <= i < |node.entries|
        ensures EntryDenotes(env, messageType, node, i, m) <==>
                  && Known(env, messageType, node, i) && node.entries[i].key.text in m.fields
                  && Said(env, messageType, node, i) == Good(m.fields[node.entries[i].key.text])
      {
        EntryExactly(env, messageType, node, i, m);
      }
      if Denotes(env, messageType, node, dest, m) {
        DenotesOverlaid(env, messageType, node, dest, m);
        OverlaidUnique(env, messageType, node, dest, m, Convert(env, messageType, node, dest).1);
      }
    }
  }

  lemma DenotesOverlaid(env: Env, messageType: string, node: Node, dest: Message, m: Message)
    requires node.Map? && Denotes(env, messageType, node, dest, m)
    requires forall i | 0 <= i < |node.entries| ::
               EntryDenotes(env, messageType, node, i, m) <==>
                 && Known(env, messageType, node, i) && node.entries[i].key.text in m.fields
                 && Said(env, messageType, node, i) == Good(m.fields[node.entries[i].key.text])
    ensures Acceptable(env, messageType, node) && Overlaid(env, messageType, node, dest, m)
  {
    forall i | 0 <= i < |node.entries|
      ensures && Known(env, messageType, node, i) && node.entries[i].key.text in m.fields
              && Said(env, messageType, node, i) == Good(m.fields[node.entries[i].key.text])
    {
      assert EntryDenotes(env, messageType, node, i, m);
    }
  }
}
