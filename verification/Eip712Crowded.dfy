/** A payload of a thousand and one objects on which type names run out. */
module Eip712Crowded {
  import opened Options
  import opened Decimal
  import Lex
  import opened StringOrder
  import opened Json
  import opened TypeNames
  import opened Eip712Payload
  import opened Eip712Types
  import opened Eip712Conforms
  import opened Eip712Create
  import opened Eip712Limits

  const ROOT := "TypeT"

  /** Messages of one type, each with a field of its own. */
  function OwnField(k: nat): string { "f" + Print(k) }

  function Message(k: nat): JSON { Obj(map["type" := Str("T"), OwnField(k) := Str("x")]) }

  function Fields(n: nat): map<string, JSON> {
    if n == 0 then map[] else Fields(n - 1)[MsgField(n - 1) := Message(n - 1)]
  }

  function Crowded(n: nat): JSON { Obj(Fields(n)) }

  /** What is inferred for message `k`. */
  function Definition(k: nat): seq<Field> { [Field("type", "string"), Field(OwnField(k), "string")] }

  lemma OwnFieldInjective(i: nat, j: nat)
    requires OwnField(i) == OwnField(j)
    ensures i == j
  {
    hide Print;
    assert OwnField(i)[1..] == Print(i) && OwnField(j)[1..] == Print(j);
    PrintInjective(i, j);
  }

  lemma {:induction false} MessageIsThere(n: nat, i: nat)
    requires i < n
    ensures MsgAt(Crowded(n), i) == Some(Message(i))
  {
    hide MsgField, Message;
    if i < n - 1 {
      MessageIsThere(n - 1, i);
      if MsgField(i) == MsgField(n - 1) { MsgFieldInjective(i, n - 1); }
    }
  }

  lemma OwnFieldFirst(k: nat)
    ensures Less(OwnField(k), "type") && OwnField(k) != "type"
  {
    hide Print;
    var a: string := OwnField(k);
    assert a[0] == 'f' && "type"[0] == 't';
  }

  lemma NamesOf(k: nat)
    ensures DescendingNames(Message(k).fields.Keys) == ["type", OwnField(k)]
  {
    OwnFieldFirst(k);
    hide Less, OwnField;
    var names, s := ["type", OwnField(k)], Message(k).fields.Keys;
    assert s == {"type", OwnField(k)};
    OrderUnique(DescendingNames(s), names, s);
  }

  lemma RootOfT()
    ensures RootType("T") == ROOT && StartsWithType(ROOT) && MsgType(Message(0)) == Some("T")
  {
    OwnFieldFirst(0);
    RootTypeIs("T", "T");
  }

  lemma TypeOf(k: nat)
    ensures MsgType(Message(k)) == Some("T")
  {
    OwnFieldFirst(k);
  }

  lemma StringField(t: Table, msg: JSON, name: string)
    requires msg.Obj? && name in msg.fields && msg.fields[name].Str?
    ensures InferField(t, ROOT, "_", msg, name) == (t, Some([Field(name, "string")])) && ObjectsAt(msg, name) == 0
  {
    assert "string" + "" == "string";
  }

  /** Both fields are strings. */
  lemma FieldsOf(t: Table, k: nat)
    ensures InferFields(t, ROOT, "_", Message(k), ["type", OwnField(k)]) == (t, Some(Definition(k)))
    ensures FieldObjects(Message(k), ["type", OwnField(k)]) == 0
  {
    OwnFieldFirst(k);
    var msg, a, b := Message(k), "type", OwnField(k);
    StringField(t, msg, a);
    StringField(t, msg, b);
    hide Less, OwnField, InferField, ObjectsAt, Message;
    assert [a, b][..1] == [a] && [a][..0] == [];
    assert InferFields(t, ROOT, "_", msg, []) == (t, Some([]));
    assert [] + [Field(a, "string")] == [Field(a, "string")];
    assert InferFields(t, ROOT, "_", msg, [a]) == (t, Some([Field(a, "string")]));
    assert [Field(a, "string")] + [Field(b, "string")] == Definition(k);
    assert FieldObjects(msg, [a]) == 0;
  }

  lemma InferMessage(t: Table, k: nat)
    ensures Infer(t, ROOT, "_", Message(k)) == AddTypes(t, ROOT, Definition(k)) && Objects(Message(k)) == 1
  {
    hide AddTypes, InferFields, FieldObjects, Definition, OwnField;
    NamesOf(k);
    FieldsOf(t, k);
  }

  lemma OneObject(k: nat)
    ensures Objects(Message(k)) == 1
  {
    hide Infer, AddTypes;
    InferMessage(map[], k);
  }

  /** The first `n` keys of the name are taken by the first `n` messages, and no other. */
  ghost predicate TakenBy(t: Table, n: nat) {
    && (forall k :: 0 <= k < n ==> WithIndex(ROOT, k) in t && t[WithIndex(ROOT, k)] == Definition(k))
    && (forall k :: k >= n ==> WithIndex(ROOT, k) !in t)
  }

  lemma AllTaken(t: Table, n: nat)
    requires TakenBy(t, n)
    ensures forall j :: 0 <= j < n ==> Taken(t, ROOT, Definition(n), j)
    ensures !Taken(t, ROOT, Definition(n), n)
  {
    hide WithIndex, OwnField;
    forall j | 0 <= j < n ensures Taken(t, ROOT, Definition(n), j) {
      assert Definition(j)[1].name == OwnField(j) && Definition(n)[1].name == OwnField(n);
      if OwnField(j) == OwnField(n) { OwnFieldInjective(j, n); }
    }
  }

  /** As long as there is an index left, the next message takes it. */
  lemma NextTaken(t: Table, n: nat)
    requires TakenBy(t, n) && n < MAX_DUPLICATES
    ensures var (u, key) := AddTypes(t, ROOT, Definition(n));
      key == Some(WithIndex(ROOT, n)) && TakenBy(AppendTx(u, MsgField(n), key.value), n + 1)
  {
    hide WithIndex, Definition, FirstFit, MsgField;
    AllTaken(t, n);
    FirstFitIs(t, ROOT, Definition(n), n);
    RootOfT();
    var u := t[WithIndex(ROOT, n) := Definition(n)];
    forall k: nat ensures WithIndex(ROOT, k) != TX && (k != n ==> WithIndex(ROOT, k) != WithIndex(ROOT, n)) {
      WithIndexIsTypeKey(ROOT, k);
      TxIsNoTypeKey(WithIndex(ROOT, k));
      if k != n && WithIndex(ROOT, k) == WithIndex(ROOT, n) { WithIndexInjective(ROOT, k, n); }
    }
    assert forall k :: 0 <= k <= n ==> WithIndex(ROOT, k) in u && u[WithIndex(ROOT, k)] == Definition(k);
  }

  lemma InitiallyFree()
    ensures TakenBy(InitialTypes(), 0)
  {
    hide WithIndex;
    RootOfT();
    forall k: nat ensures WithIndex(ROOT, k) !in InitialTypes() { WithIndexIsTypeKey(ROOT, k); }
  }

  lemma AddMessage(t: Table, n: nat, k: nat)
    requires k < n
    ensures AddMsg(t, MsgField(k), MsgAt(Crowded(n), k)) ==
      var (u, key) := AddTypes(t, ROOT, Definition(k));
      if key.None? then (u, false) else (AppendTx(u, MsgField(k), key.value), true)
  {
    hide Infer, AddTypes, Message, MsgField, RootType, Definition, Fields;
    MessageIsThere(n, k);
    TypeOf(k);
    RootOfT();
    InferMessage(t, k);
  }

  /** A thousand messages find a place. */
  lemma {:induction false} ThousandFit(m: nat, n: nat)
    requires n <= 1000 && n <= m
    ensures Create(Crowded(m), n).1 && TakenBy(Create(Crowded(m), n).0, n)
    decreases n
  {
    hide AddMsg, AddTypes, TakenBy, InitialTypes, Crowded, Definition;
    if n == 0 {
      InitiallyFree();
    } else {
      ThousandFit(m, n - 1);
      var t := Create(Crowded(m), n - 1).0;
      AddMessage(t, m, n - 1);
      NextTaken(t, n - 1);
    }
  }

  lemma {:induction false} OneObjectEach(m: nat, n: nat)
    requires n <= m
    ensures MessageObjects(Crowded(m), n) == n && forall i :: 0 <= i < n ==> Typable(Crowded(m), i)
    decreases n
  {
    hide Objects, Message, Crowded, MsgAt, MsgType;
    if n > 0 {
      OneObjectEach(m, n - 1);
      MessageIsThere(m, n - 1);
      TypeOf(n - 1);
      OneObject(n - 1);
    }
  }

  /** One message more, and creation fails: the messages hold a thousand and one objects, one more than always
      succeed. */
  lemma OneTooMany()
    ensures var n := 1001;
      && (forall i :: 0 <= i < n ==> Typable(Crowded(n), i))
      && MessageObjects(Crowded(n), n) == n
      && Create(Crowded(n), n - 1).1 && !Create(Crowded(n), n).1
  {
    hide AddMsg, AddTypes, TakenBy, Crowded, Typable, MessageObjects, Definition, Taken;
    var n := 1001;
    OneObjectEach(n, n);
    ThousandFit(n, 1000);
    var t := Create(Crowded(n), 1000).0;
    AllTaken(t, 1000);
    AddTypesFails(t, ROOT, Definition(1000));
    AddMessage(t, n, 1000);
  }
}
