/** Type names run out only for payloads with more than a thousand objects. */
module Eip712Limits {
  import opened Options
  import opened Decimal
  import opened Json
  import opened TypeNames
  import opened Eip712Payload
  import opened Eip712Types
  import opened Eip712Conforms
  import opened Eip712Create

  // ---- Counting ----------------------------------------------------------------------------------------

  /** The objects that inference visits in a value. */
  ghost function Objects(payload: JSON): nat
    decreases payload, 2
  {
    if !payload.Obj? then 0 else 1 + FieldObjects(payload, DescendingNames(payload.fields.Keys))
  }

  ghost function FieldObjects(payload: JSON, names: seq<string>): nat
    requires payload.Obj?
    decreases payload, 1, |names|
  {
    if names == [] then 0
    else FieldObjects(payload, names[..|names| - 1]) + ObjectsAt(payload, names[|names| - 1])
  }

  ghost function ObjectsAt(payload: JSON, name: string): nat
    requires payload.Obj?
    decreases payload, 0
  {
    if name !in payload.fields || payload.fields[name] == Arr([]) then 0
    else if Element(payload.fields[name]).Obj? then Objects(Element(payload.fields[name]))
    else 0
  }

  /** The definitions that inference has added. */
  function Added(t: Table): set<string> { set k | k in t && IsTypeKey(k) }

  lemma AddOne(t: Table, typeDef: string, types: seq<Field>)
    ensures var (u, key) := AddTypes(t, typeDef, types);
      |Added(u)| <= |Added(t)| + if key.Some? then 1 else 0
  {
    hide FirstFit, IsTypeKey, WithIndex;
    var r := FirstFit(t, typeDef, types, 0);
    if r.Some? {
      var key := WithIndex(typeDef, r.value);
      if key !in t {
        var u := t[key := types];
        assert Added(u) == if IsTypeKey(key) then Added(t) + {key} else Added(t);
      }
    }
  }

  /** Inference adds at most one definition for every object, and one less if it fails. */
  lemma {:induction false} InferAdds(t: Table, root: string, prefix: string, payload: JSON)
    ensures var (u, key) := Infer(t, root, prefix, payload);
      |Added(u)| <= |Added(t)| + Objects(payload) - if payload.Obj? && key.None? then 1 else 0
    decreases payload, 2
  {
    hide AddTypes, InferFields, FieldObjects, Added;
    if payload.Obj? {
      var names := DescendingNames(payload.fields.Keys);
      InferFieldsAdd(t, root, prefix, payload, names);
      var (u, types) := InferFields(t, root, prefix, payload, names);
      if types.Some? { AddOne(u, TypeDefForPrefix(prefix, root), types.value); }
    }
  }

  lemma {:induction false} InferFieldsAdd(t: Table, root: string, prefix: string, payload: JSON, names: seq<string>)
    requires payload.Obj?
    ensures |Added(InferFields(t, root, prefix, payload, names).0)| <= |Added(t)| + FieldObjects(payload, names)
    decreases payload, 1, |names|
  {
    hide InferField, ObjectsAt, Added;
    if names != [] {
      var front, last := names[..|names| - 1], names[|names| - 1];
      InferFieldsAdd(t, root, prefix, payload, front);
      InferFieldAdds(InferFields(t, root, prefix, payload, front).0, root, prefix, payload, last);
    }
  }

  lemma {:induction false} InferFieldAdds(t: Table, root: string, prefix: string, payload: JSON, name: string)
    requires payload.Obj?
    ensures |Added(InferField(t, root, prefix, payload, name).0)| <= |Added(t)| + ObjectsAt(payload, name)
    decreases payload, 0
  {
    hide Infer, Objects, Added, Sanitized;
    if name in payload.fields && payload.fields[name] != Arr([]) && Element(payload.fields[name]).Obj? {
      InferAdds(t, root, SubPrefix(prefix, name), Element(payload.fields[name]));
    }
  }

  // ---- Running out ----------------------------------------------------------------------------------------

  lemma WithIndexInjective(typeDef: string, i: nat, j: nat)
    requires WithIndex(typeDef, i) == WithIndex(typeDef, j)
    ensures i == j
  {
    hide Print;
    assert WithIndex(typeDef, i)[|typeDef|..] == Print(i) && WithIndex(typeDef, j)[|typeDef|..] == Print(j);
    PrintInjective(i, j);
  }

  /** The first `n` keys of a name are different ones. */
  function Keys(typeDef: string, n: nat): set<string> {
    if n == 0 then {} else Keys(typeDef, n - 1) + {WithIndex(typeDef, n - 1)}
  }

  lemma {:induction false} KeysCount(typeDef: string, n: nat)
    ensures |Keys(typeDef, n)| == n && forall x :: x in Keys(typeDef, n) ==> exists k :: 0 <= k < n && x == WithIndex(typeDef, k)
  {
    hide WithIndex;
    if n > 0 {
      KeysCount(typeDef, n - 1);
      if WithIndex(typeDef, n - 1) in Keys(typeDef, n - 1) {
        var k :| 0 <= k < n - 1 && WithIndex(typeDef, n - 1) == WithIndex(typeDef, k);
        WithIndexInjective(typeDef, n - 1, k);
      }
    }
  }

  lemma {:induction false} SubsetCount(a: set<string>, b: set<string>)
    requires a <= b
    ensures |a| <= |b|
  {
    if a != {} {
      var x :| x in a;
      SubsetCount(a - {x}, b - {x});
    }
  }

  /** A name used up means a thousand definitions. */
  lemma ExhaustedCount(t: Table, typeDef: string)
    requires Exhausted(t, typeDef) && StartsWithType(typeDef)
    ensures |Added(t)| >= 1000
  {
    hide WithIndex, IsTypeKey, Keys;
    KeysCount(typeDef, MAX_DUPLICATES);
    forall x | x in Keys(typeDef, MAX_DUPLICATES) ensures x in Added(t) {
      var k :| 0 <= k < MAX_DUPLICATES && x == WithIndex(typeDef, k);
      WithIndexIsTypeKey(typeDef, k);
    }
    SubsetCount(Keys(typeDef, MAX_DUPLICATES), Added(t));
  }

  // ---- The whole payload -------------------------------------------------------------------------------------

  /** The objects in the first `n` messages. */
  ghost function MessageObjects(payload: JSON, n: nat): nat {
    if n == 0 then 0
    else MessageObjects(payload, n - 1) + if MsgAt(payload, n - 1).Some? then Objects(MsgAt(payload, n - 1).value) else 0
  }

  predicate Typable(payload: JSON, i: nat) {
    MsgAt(payload, i).Some? && MsgType(MsgAt(payload, i).value).Some?
  }

  lemma AppendAddsNothing(t: Table, field: string, key: string)
    ensures Added(AppendTx(t, field, key)) == Added(t)
  {
    assert !IsTypeKey(TX);
  }

  lemma InitiallyNone()
    ensures |Added(InitialTypes())| == 0
  {
    var t := InitialTypes();
    forall k | k in t ensures !IsTypeKey(k) { }
    assert Added(t) == {};
  }

  /** createEIP712Types succeeds on every payload whose messages are objects with a type and hold at most a
      thousand objects together. */
  lemma {:induction false} SmallPayloadsSucceed(payload: JSON, n: nat)
    requires forall i :: 0 <= i < n ==> Typable(payload, i)
    requires MessageObjects(payload, n) <= 1000
    ensures Create(payload, n).1 && |Added(Create(payload, n).0)| <= MessageObjects(payload, n)
  {
    hide Infer, Objects, Added, InitialTypes, RootType, MsgField, Exhausted;
    if n == 0 {
      InitiallyNone();
    } else {
      SmallPayloadsSucceed(payload, n - 1);
      assert Typable(payload, n - 1);
      var t, msg := Create(payload, n - 1).0, MsgAt(payload, n - 1).value;
      var root := RootType(MsgType(msg).value);
      InferAdds(t, root, "_", msg);
      var (u, key) := Infer(t, root, "_", msg);
      if key.None? {
        var name := HasLastPart(MsgType(msg).value);
        RootTypeIs(MsgType(msg).value, name);
        var def := InferFails(t, root, "_", msg);
        ExhaustedCount(u, def);
      } else {
        AppendAddsNothing(u, MsgField(n - 1), key.value);
      }
    }
  }
}
