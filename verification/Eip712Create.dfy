/** createEIP712Types: the type table in place, message after message (ethereum/eip712/types.go). */
module Eip712Create {
  import opened Decimal
  import opened Options
  import opened Json
  import opened TypeNames
  import opened Eip712Payload
  import opened Eip712Types
  import opened Eip712Conforms

  // ---- What one message adds -------------------------------------------------------------------------

  /** The value of a message's "type" field, if it is a non-empty string. */
  function MsgType(msg: JSON): Option<string> {
    if msg.Obj? && "type" in msg.fields && msg.fields["type"].Str? && msg.fields["type"].s != ""
    then Some(msg.fields["type"].s) else None
  }

  function AppendTx(t: Table, field: string, key: string): Table {
    t[TX := (if TX in t then t[TX] else []) + [Field(field, key)]]
  }

  ghost function AddMsg(t: Table, field: string, msg: Option<JSON>): (Table, bool) {
    if msg.None? || MsgType(msg.value).None? then (t, false)
    else
      var (u, key) := Infer(t, RootType(MsgType(msg.value).value), "_", msg.value);
      if key.None? then (u, false) else (AppendTx(u, field, key.value), true)
  }

  function MsgAt(payload: JSON, i: nat): Option<JSON> {
    if payload.Obj? && MsgField(i) in payload.fields then Some(payload.fields[MsgField(i)]) else None
  }

  /** The table after the first `n` messages. */
  ghost function Create(payload: JSON, n: nat): (Table, bool) {
    if n == 0 then (InitialTypes(), true)
    else
      var (t, ok) := Create(payload, n - 1);
      if !ok then (t, false) else AddMsg(t, MsgField(n - 1), MsgAt(payload, n - 1))
  }

  // ---- The table in place ------------------------------------------------------------------------------

  class TypeTable {
    var types: Table

    constructor ()
      ensures types == InitialTypes()
    {
      types := InitialTypes();
    }

    /** addTypesToRoot */
    method AddTypesToRoot(typeDef: string, fields: seq<Field>) returns (key: Option<string>)
      modifies this
      ensures (types, key) == AddTypes(old(types), typeDef, fields)
    {
      hide WithIndex;
      var index: nat := 0;
      while true
        invariant index < MAX_DUPLICATES && types == old(types)
        invariant FirstFit(types, typeDef, fields, index) == FirstFit(types, typeDef, fields, 0)
        decreases MAX_DUPLICATES - index
      {
        var indexed := WithIndex(typeDef, index);
        if indexed in types && types[indexed] == fields { return Some(indexed); }
        if indexed !in types {
          types := types[indexed := fields];
          return Some(indexed);
        }
        index := index + 1;
        if index == MAX_DUPLICATES { return None; }
      }
    }

    /** recursivelyAddTypesToRoot */
    method RecursivelyAddTypesToRoot(root: string, prefix: string, payload: JSON) returns (key: Option<string>)
      modifies this
      ensures (types, key) == Infer(old(types), root, prefix, payload)
      decreases payload, 1
    {
      hide InferField, AddTypes;
      if !payload.Obj? { return None; }
      var typesToAdd: seq<Field> := [];
      var names := SortedJSONKeys(payload.fields);
      for i := 0 to |names|
        invariant (types, Some(typesToAdd)) == InferFields(old(types), root, prefix, payload, names[..i])
      {
        assert names[..i + 1][..i] == names[..i];
        var more := AddField(root, prefix, payload, names[i]);
        if more.None? {
          InferFieldsStop(old(types), root, prefix, payload, names, i + 1);
          return None;
        }
        typesToAdd := typesToAdd + more.value;
      }
      assert names[..|names|] == names;
      key := AddTypesToRoot(TypeDefForPrefix(prefix, root), typesToAdd);
    }

    /** One round of its loop: the entry for a field, if it has one. */
    method AddField(root: string, prefix: string, payload: JSON, name: string) returns (more: Option<seq<Field>>)
      requires payload.Obj? && name in payload.fields
      modifies this
      ensures (types, more) == InferField(old(types), root, prefix, payload, name)
      decreases payload, 0
    {
      hide Infer, Sanitized;
      var field := payload.fields[name];
      var suffix := "";
      if field.Arr? {
        if |field.items| == 0 { return Some([Field(name, "string[]")]); }
        field := field.items[0];
        suffix := "[]";
      }
      if EthType(field) != "" { return Some([Field(name, EthType(field) + suffix)]); }
      if field.Obj? {
        var key := RecursivelyAddTypesToRoot(root, SubPrefix(prefix, name), field);
        if key.None? { return None; }
        var sanitized := SanitizeTypedef(key.value);
        return Some([Field(name, sanitized + suffix)]);
      }
      return Some([]);
    }

    /** addMsgTypesToRoot */
    method AddMsgTypesToRoot(field: string, msg: Option<JSON>) returns (ok: bool)
      modifies this
      ensures (types, ok) == AddMsg(old(types), field, msg)
    {
      hide Infer, RootType;
      if msg.None? || !msg.value.Obj? { return false; }
      var fields := msg.value.fields;
      if "type" !in fields || !fields["type"].Str? { return false; }
      var url := fields["type"].s;
      if url == "" { return false; }
      var key := RecursivelyAddTypesToRoot(RootType(url), "_", msg.value);
      if key.None? { return false; }
      types := AppendTx(types, field, key.value);
      return true;
    }
  }

  /** Once a field fails, the rest is not looked at. */
  lemma {:induction false} InferFieldsStop(t: Table, root: string, prefix: string, payload: JSON, names: seq<string>, i: nat)
    requires payload.Obj? && i <= |names| && InferFields(t, root, prefix, payload, names[..i]).1.None?
    ensures InferFields(t, root, prefix, payload, names) == InferFields(t, root, prefix, payload, names[..i])
    decreases |names|
  {
    hide InferField;
    if i == |names| {
      assert names[..i] == names;
    } else {
      var front := names[..|names| - 1];
      assert front[..i] == names[..i];
      InferFieldsStop(t, root, prefix, payload, front, i);
    }
  }

  // ---- The finished table --------------------------------------------------------------------------------

  /** The entry of message `i` in Tx names a type to which the message conforms, and which bears the last part
      of its type URL. */
  ghost predicate Typed(t: Table, payload: JSON, i: nat) {
    && TX in t && 5 + i < |t[TX]|
    && t[TX][5 + i].name == MsgField(i) && MsgAt(payload, i).Some? && MsgType(MsgAt(payload, i).value).Some?
    && forall name :: LastPart(MsgType(MsgAt(payload, i).value).value, name) ==>
         Conforms(t, t[TX][5 + i].ty, MsgAt(payload, i).value, "Type" + name, "_")
  }

  /** A table for the first `n` messages: Tx holds its own five fields and one per message, every
      message conforms to its type, every type that is named exists, and the predefined types are
      as they were. */
  ghost predicate TypesFor(t: Table, payload: JSON, n: nat) {
    && Extends(InitialTypes(), t) && Closed(t)
    && |t[TX]| == 5 + n && t[TX][..5] == InitialTypes()[TX]
    && forall i :: 0 <= i < n ==> Typed(t, payload, i)
  }

  lemma InitialClosed()
    ensures Closed(InitialTypes()) && |InitialTypes()[TX]| == 5
  {
    var t := InitialTypes();
    assert IsArrayType("Coin" + "[]") && Base("Coin" + "[]") == "Coin" by { ArrayOf("Coin"); }
    assert "Coin[]" == "Coin" + "[]";
    forall k | k in t ensures AllResolve(t, t[k]) { }
  }

  lemma AppendTxExtends(t: Table, field: string, key: string)
    requires Closed(t) && key in t
    ensures Extends(t, AppendTx(t, field, key)) && Closed(AppendTx(t, field, key))
  {
    hide IsTypeKey;
    var u := AppendTx(t, field, key);
    forall k | k in u ensures AllResolve(u, u[k]) {
      assert AllResolve(t, t[k]);
    }
  }

  lemma TypedMonotone(t: Table, u: Table, payload: JSON, i: nat)
    requires Typed(t, payload, i) && Extends(t, u) && TX in u && t[TX] <= u[TX]
    ensures Typed(u, payload, i)
  {
    hide Conforms, Extends, LastPart;
    var msg := MsgAt(payload, i).value;
    forall name | LastPart(MsgType(msg).value, name) ensures Conforms(u, u[TX][5 + i].ty, msg, "Type" + name, "_") {
      ConformsMonotone(t, u, t[TX][5 + i].ty, msg, "Type" + name, "_");
    }
  }

  /** One more message. */
  lemma AddMsgSound(t: Table, payload: JSON, n: nat)
    requires TypesFor(t, payload, n)
    ensures Extends(t, AddMsg(t, MsgField(n), MsgAt(payload, n)).0)
    ensures AddMsg(t, MsgField(n), MsgAt(payload, n)).1 ==> TypesFor(AddMsg(t, MsgField(n), MsgAt(payload, n)).0, payload, n + 1)
  {
    hide Conforms, Extends, Infer, InitialTypes, RootType, MsgField, LastPart, Typed, AllResolve, StartsWithType, Sanitized;
    var msg := MsgAt(payload, n);
    GrowsSelf(t);
    if msg.Some? && MsgType(msg.value).Some? {
      var root := RootType(MsgType(msg.value).value);
      var name := HasLastPart(MsgType(msg.value).value);
      RootTypeIs(MsgType(msg.value).value, name);
      InferSound(t, root, "_", msg.value);
      var (u, key) := Infer(t, root, "_", msg.value);
      assert u[TX] == t[TX];
      if key.Some? { AppendSound(t, u, payload, n, key.value, root); }
    }
  }

  lemma AppendSound(t: Table, u: Table, payload: JSON, n: nat, key: string, root: string)
    requires TypesFor(t, payload, n) && Extends(t, u) && Closed(u) && u[TX] == t[TX]
    requires MsgAt(payload, n).Some? && MsgType(MsgAt(payload, n).value).Some?
    requires root == RootType(MsgType(MsgAt(payload, n).value).value) && Conforms(u, key, MsgAt(payload, n).value, root, "_")
    ensures TypesFor(AppendTx(u, MsgField(n), key), payload, n + 1) && Extends(t, AppendTx(u, MsgField(n), key))
  {
    var msg := MsgAt(payload, n).value;
    ConformsHasKey(u, key, msg, root);
    AppendTxExtends(u, MsgField(n), key);
    hide Conforms, Extends, InitialTypes, MsgField, Closed, RootType, LastPart;
    var w := AppendTx(u, MsgField(n), key);
    ExtendsTransitive(t, u, w);
    ExtendsTransitive(InitialTypes(), t, w);
    ConformsMonotone(u, w, key, msg, root, "_");
    forall name | LastPart(MsgType(msg).value, name) ensures root == "Type" + name { RootTypeIs(MsgType(msg).value, name); }
    forall i | 0 <= i < n ensures Typed(w, payload, i) { TypedMonotone(t, w, payload, i); }
  }

  lemma ConformsHasKey(t: Table, key: string, v: JSON, name: string)
    requires Conforms(t, key, v, name, "_")
    ensures key in t
  {
  }

  /** The whole of createEIP712Types. */
  lemma {:induction false} CreateSound(payload: JSON, n: nat)
    requires Create(payload, n).1
    ensures TypesFor(Create(payload, n).0, payload, n)
  {
    if n == 0 {
      InitialClosed();
      GrowsSelf(InitialTypes());
      assert InitialTypes()[TX][..5] == InitialTypes()[TX];
    } else {
      hide AddMsg, TypesFor, InitialTypes;
      CreateSound(payload, n - 1);
      AddMsgSound(Create(payload, n - 1).0, payload, n - 1);
    }
  }

  /** A later message never changes a definition made for an earlier one. */
  lemma {:induction false} EarlierKept(payload: JSON, m: nat, n: nat)
    requires m <= n && Create(payload, n).1
    ensures Create(payload, m).1 && Extends(Create(payload, m).0, Create(payload, n).0)
    decreases n
  {
    hide AddMsg, TypesFor, InitialTypes, Extends;
    if m == n {
      GrowsSelf(Create(payload, n).0);
    } else {
      EarlierKept(payload, m, n - 1);
      CreateSound(payload, n - 1);
      AddMsgSound(Create(payload, n - 1).0, payload, n - 1);
      ExtendsTransitive(Create(payload, m).0, Create(payload, n - 1).0, Create(payload, n).0);
    }
  }

  /** createEIP712Types */
  method CreateEIP712Types(payload: JSON, n: nat) returns (r: Option<Table>)
    ensures r == if Create(payload, n).1 then Some(Create(payload, n).0) else None
    ensures r.Some? ==> TypesFor(r.value, payload, n)
  {
    hide AddMsg, TypesFor, InitialTypes;
    var table := new TypeTable();
    for i := 0 to n
      invariant (table.types, true) == Create(payload, i)
    {
      var ok := table.AddMsgTypesToRoot(MsgField(i), MsgAt(payload, i));
      if !ok {
        CreateStops(payload, i + 1, n);
        return None;
      }
    }
    CreateSound(payload, n);
    return Some(table.types);
  }

  lemma {:induction false} CreateStops(payload: JSON, m: nat, n: nat)
    requires m <= n && !Create(payload, m).1
    ensures !Create(payload, n).1
    decreases n
  {
    hide AddMsg;
    if m < n { CreateStops(payload, m, n - 1); }
  }

  /** createEIP712Types fails only on a message that is not an object with a type, or on a type name
      used up. */
  lemma {:induction false} CreateFails(payload: JSON, n: nat) returns (i: nat, def: string)
    requires !Create(payload, n).1
    ensures i < n && (MsgAt(payload, i).None? || MsgType(MsgAt(payload, i).value).None? || Exhausted(Create(payload, n).0, def))
  {
    hide Infer, RootType, MsgField, InitialTypes, Exhausted;
    def := "";
    if !Create(payload, n - 1).1 {
      i, def := CreateFails(payload, n - 1);
    } else {
      i := n - 1;
      var msg := MsgAt(payload, i);
      if msg.Some? && MsgType(msg.value).Some? {
        def := InferFails(Create(payload, i).0, RootType(MsgType(msg.value).value), "_", msg.value);
      }
    }
  }

  /** From the sign document to the types: every message of an accepted payload, flattened and typed,
      conforms to the type its entry in Tx names. */
  lemma TypedDataConforms(payload: JSON, fields: map<string, JSON>, i: nat)
    requires Flattenable(payload) && IsFlattening(payload, fields) && i < |Messages(payload)|
    requires Create(Obj(fields), |Messages(payload)|).1
    ensures var t := Create(Obj(fields), |Messages(payload)|).0;
      && TypesFor(t, Obj(fields), |Messages(payload)|)
      && t[TX][5 + i].name == "msg" + Print(i) && MsgType(Messages(payload)[i]).Some?
      && forall name :: LastPart(MsgType(Messages(payload)[i]).value, name) ==>
           Conforms(t, t[TX][5 + i].ty, Messages(payload)[i], "Type" + name, "_")
  {
    hide Create, Conforms, Extends, Closed, InitialTypes, Print;
    CreateSound(Obj(fields), |Messages(payload)|);
    assert Typed(Create(Obj(fields), |Messages(payload)|).0, Obj(fields), i);
  }
}
