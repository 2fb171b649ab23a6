/** Inference of EIP-712 types from JSON messages (ethereum/eip712/types.go): what is inferred, as a
    function of the table so far. */
module Eip712Types {
  import opened Options
  import opened Json
  import opened Decimal
  import opened TypeNames
  import opened Eip712Payload

  datatype Field = Field(name: string, ty: string)

  type Table = map<string, seq<Field>>

  const TX := "Tx"
  const MAX_DUPLICATES: nat := 1000

  function InitialTypes(): Table {
    map[
      "EIP712Domain" := [Field("name", "string"), Field("version", "string"), Field("chainId", "uint256"),
                         Field("verifyingContract", "string"), Field("salt", "string")],
      "Tx" := [Field("account_number", "string"), Field("chain_id", "string"), Field("fee", "Fee"),
               Field("memo", "string"), Field("sequence", "string")],
      "Fee" := [Field("amount", "Coin[]"), Field("gas", "string")],
      "Coin" := [Field("denom", "string"), Field("amount", "string")]]
  }

  // ---- addTypesToRoot ------------------------------------------------------------------------------

  /** Key number `k` of `typeDef` is taken by another definition. */
  predicate Taken(t: Table, typeDef: string, types: seq<Field>, k: nat) {
    WithIndex(typeDef, k) in t && t[WithIndex(typeDef, k)] != types
  }

  /** The first index at or after `k` that is free or holds the same definition. */
  function FirstFit(t: Table, typeDef: string, types: seq<Field>, k: nat): (r: Option<nat>)
    requires k <= MAX_DUPLICATES
    ensures r.Some? ==> k <= r.value < MAX_DUPLICATES && !Taken(t, typeDef, types, r.value)
    ensures forall j :: k <= j < (if r.Some? then r.value else MAX_DUPLICATES) ==> Taken(t, typeDef, types, j)
    decreases MAX_DUPLICATES - k
  {
    if k == MAX_DUPLICATES then None
    else if Taken(t, typeDef, types, k) then FirstFit(t, typeDef, types, k + 1)
    else Some(k)
  }

  function AddTypes(t: Table, typeDef: string, types: seq<Field>): (Table, Option<string>) {
    match FirstFit(t, typeDef, types, 0)
    case None => (t, None)
    case Some(k) =>
      var key := WithIndex(typeDef, k);
      (if key in t then t else t[key := types], Some(key))
  }

  /** First fit is determined by which indices are taken. */
  lemma FirstFitIs(t: Table, typeDef: string, types: seq<Field>, k: nat)
    requires k < MAX_DUPLICATES && !Taken(t, typeDef, types, k)
    requires forall j :: 0 <= j < k ==> Taken(t, typeDef, types, j)
    ensures FirstFit(t, typeDef, types, 0) == Some(k)
  {
    hide Taken;
    var r := FirstFit(t, typeDef, types, 0);
  }

  // ---- recursivelyAddTypesToRoot ---------------------------------------------------------------------

  /** getEthTypeForJSON */
  function EthType(v: JSON): string {
    match v
    case Bool(_) => "bool"
    case Number(_) => "int64"
    case Str(_) => "string"
    case _ => ""
  }

  /** typeDefForPrefix */
  function TypeDefForPrefix(prefix: string, root: string): string {
    if prefix == "_" then root else Sanitized(prefix)
  }

  /** prefixForSubField */
  function SubPrefix(prefix: string, name: string): string { prefix + "." + name }

  /** What is looked at: the first element of an array, or the value itself. */
  function Element(v: JSON): JSON
    requires v != Arr([])
  {
    if v.Arr? then v.items[0] else v
  }

  function Suffix(v: JSON): string { if v.Arr? then "[]" else "" }

  /** The table after the fields of `payload` have been inferred, and the key found. */
  ghost function Infer(t: Table, root: string, prefix: string, payload: JSON): (Table, Option<string>)
    decreases payload, 2
  {
    if !payload.Obj? then (t, None)
    else
      var (u, types) := InferFields(t, root, prefix, payload, DescendingNames(payload.fields.Keys));
      if types.None? then (u, None) else AddTypes(u, TypeDefForPrefix(prefix, root), types.value)
  }

  ghost function InferFields(t: Table, root: string, prefix: string, payload: JSON, names: seq<string>): (Table, Option<seq<Field>>)
    requires payload.Obj?
    decreases payload, 1, |names|
  {
    if names == [] then (t, Some([]))
    else
      var (u, types) := InferFields(t, root, prefix, payload, names[..|names| - 1]);
      if types.None? then (u, None)
      else
        var (w, more) := InferField(u, root, prefix, payload, names[|names| - 1]);
        if more.None? then (w, None) else (w, Some(types.value + more.value))
  }

  /** One field: at most one entry. */
  ghost function InferField(t: Table, root: string, prefix: string, payload: JSON, name: string): (Table, Option<seq<Field>>)
    requires payload.Obj?
    decreases payload, 0
  {
    if name !in payload.fields then (t, Some([]))
    else
      var v := payload.fields[name];
      if v == Arr([]) then (t, Some([Field(name, "string[]")]))
      else
        var e := Element(v);
        if EthType(e) != "" then (t, Some([Field(name, EthType(e) + Suffix(v))]))
        else if e.Obj? then
          var (u, key) := Infer(t, root, SubPrefix(prefix, name), e);
          if key.None? then (u, None) else (u, Some([Field(name, Sanitized(key.value) + Suffix(v))]))
        else (t, Some([]))
  }

  // ---- Conformance -------------------------------------------------------------------------------------

  /** Values that can be typed: not null, and not an array whose first element is null or an array. */
  predicate Supported(v: JSON) {
    v == Arr([]) || (!Element(v).Null? && !Element(v).Arr?)
  }

  function Names(types: seq<Field>): seq<string> {
    seq(|types|, i requires 0 <= i < |types| => types[i].name)
  }

  /** A definition lists exactly the supported fields of an object, each once, in descending order. */
  ghost predicate Lists(types: seq<Field>, fields: map<string, JSON>) {
    && Descending(Names(types))
    && (forall i :: 0 <= i < |types| ==> types[i].name in fields)
    && (forall n :: n in Names(types) <==> n in fields && Supported(fields[n]))
  }

  /** One of the thousand keys of a name. */
  ghost predicate Bears(key: string, name: string) {
    exists k :: 0 <= k < 1000 && key == name + Print(k)
  }

  /** The object `v` has the type that `key` names, which bears `name`. `place` are the field names that lead to
      the object, from an underscore for the message on; the types of objects in it are named after theirs. */
  ghost predicate Conforms(t: Table, key: string, v: JSON, name: string, place: string)
    decreases v, 0
  {
    && v.Obj? && IsTypeKey(key) && Bears(key, name) && key in t && Lists(t[key], v.fields)
    && forall i :: 0 <= i < |t[key]| ==> FieldConforms(t, t[key][i].ty, v.fields[t[key][i].name], place + "." + t[key][i].name)
  }

  ghost predicate ElementConforms(t: Table, ty: string, v: JSON, place: string)
    decreases v, 1
  {
    match v
    case Bool(_) => ty == "bool"
    case Number(_) => ty == "int64"
    case Str(_) => ty == "string"
    case Obj(_) => Conforms(t, ty, v, Camel(place, Part), place)
    case _ => false
  }

  /** An array has the array type of its first element. */
  ghost predicate FieldConforms(t: Table, ty: string, v: JSON, place: string)
    decreases v, 2
  {
    if v == Arr([]) then ty == "string[]"
    else if v.Arr? then IsArrayType(ty) && ElementConforms(t, Base(ty), v.items[0], place)
    else ElementConforms(t, ty, v, place)
  }

  predicate IsArrayType(ty: string) { |ty| >= 2 && ty[|ty| - 2..] == "[]" }

  function Base(ty: string): string
    requires |ty| >= 2
  {
    ty[..|ty| - 2]
  }

  lemma ArrayOf(base: string)
    ensures IsArrayType(base + "[]") && Base(base + "[]") == base
  {
  }

  /** No definition is lost or changed, except that of Tx; new keys have the form of a type key. */
  predicate Extends(t: Table, u: Table) {
    && (forall k :: k in t && k != TX ==> k in u && u[k] == t[k])
    && (forall k :: k in u && k !in t ==> IsTypeKey(k))
  }

  /** No definition at all is lost or changed. */
  predicate Grows(t: Table, u: Table)
    ensures Grows(t, u) ==> Extends(t, u)
  {
    && (forall k :: k in t ==> k in u && u[k] == t[k])
    && (forall k :: k in u && k !in t ==> IsTypeKey(k))
  }

  lemma TxIsNoTypeKey(key: string)
    requires IsTypeKey(key)
    ensures key != TX && key !in {"bool", "int64", "string", "uint256"}
  {
    assert key[0] == key[..4][0] == 'T';
  }

  lemma {:induction false} ConformsMonotone(t: Table, u: Table, key: string, v: JSON, name: string, place: string)
    requires Extends(t, u) && Conforms(t, key, v, name, place)
    ensures Conforms(u, key, v, name, place)
    decreases v, 0
  {
    TxIsNoTypeKey(key);
    assert forall i :: 0 <= i < |t[key]| ==> t[key][i].name in v.fields;
    hide Lists, IsTypeKey, Bears;
    forall i | 0 <= i < |t[key]| ensures FieldConforms(u, t[key][i].ty, v.fields[t[key][i].name], place + "." + t[key][i].name) {
      FieldConformsMonotone(t, u, t[key][i].ty, v.fields[t[key][i].name], place + "." + t[key][i].name);
    }
  }

  lemma {:induction false} FieldConformsMonotone(t: Table, u: Table, ty: string, v: JSON, place: string)
    requires Extends(t, u) && FieldConforms(t, ty, v, place)
    ensures FieldConforms(u, ty, v, place)
    decreases v, 1
  {
    hide Extends, Conforms, Camel;
    if v.Obj? {
      ConformsMonotone(t, u, ty, v, Camel(place, Part), place);
    } else if v.Arr? && v != Arr([]) && v.items[0].Obj? {
      ConformsMonotone(t, u, Base(ty), v.items[0], Camel(place, Part), place);
    }
  }
}
