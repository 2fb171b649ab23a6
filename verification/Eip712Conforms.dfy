/** Inferred types describe the messages they were inferred from. */
module Eip712Conforms {
  import opened Options
  import opened Json
  import opened StringOrder
  import opened Decimal
  import opened TypeNames
  import opened Eip712Types

  // ---- Tables grow -------------------------------------------------------------------------------

  lemma GrowsTransitive(t: Table, u: Table, w: Table)
    requires Grows(t, u) && Grows(u, w)
    ensures Grows(t, w)
  {
    hide IsTypeKey;
  }

  lemma GrowsSelf(t: Table)
    ensures Grows(t, t)
  {
  }

  lemma ExtendsTransitive(t: Table, u: Table, w: Table)
    requires Extends(t, u) && Extends(u, w)
    ensures Extends(t, w)
  {
    hide IsTypeKey;
  }

  /** Prefixes and root types as inference passes them down. */
  predicate Place(root: string, prefix: string) {
    StartsWithType(root) && (prefix == "_" || Below(prefix))
  }

  lemma SubPrefixBelow(root: string, prefix: string, name: string)
    requires Place(root, prefix)
    ensures Below(SubPrefix(prefix, name))
  {
    assert prefix != "_" ==> SubPrefix(prefix, name)[..2] == prefix[..2];
  }

  lemma TypeDefStarts(root: string, prefix: string)
    requires Place(root, prefix)
    ensures StartsWithType(TypeDefForPrefix(prefix, root))
  {
    hide Sanitized;
    if prefix != "_" { SanitizedBelow(prefix); }
  }

  /** Adding a definition: it is found at the key returned, and nothing else has changed. */
  lemma AddTypesFinds(t: Table, typeDef: string, types: seq<Field>)
    requires StartsWithType(typeDef)
    ensures Grows(t, AddTypes(t, typeDef, types).0)
    ensures var (u, key) := AddTypes(t, typeDef, types);
      key.Some? ==> key.value in u && u[key.value] == types && IsTypeKey(key.value) && Bears(key.value, typeDef)
    ensures var (u, key) := AddTypes(t, typeDef, types);
      (forall k :: k in u ==> (k in t && t[k] == u[k]) || u[k] == types) && (forall k :: k in t ==> k in u)
  {
    hide FirstFit, IsTypeKey, Print;
    var r := FirstFit(t, typeDef, types, 0);
    if r.Some? {
      WithIndexIsTypeKey(typeDef, r.value);
      assert Bears(WithIndex(typeDef, r.value), typeDef);
    }
  }

  /** It fails only when a thousand other definitions bear the name. */
  lemma AddTypesFails(t: Table, typeDef: string, types: seq<Field>)
    ensures AddTypes(t, typeDef, types).1.None? <==> forall k :: 0 <= k < MAX_DUPLICATES ==> Taken(t, typeDef, types, k)
  {
    hide Taken;
  }

  // ---- Every named type exists ----------------------------------------------------------------------

  predicate Known(t: Table, ty: string) { ty in {"bool", "int64", "string", "uint256"} || ty in t }

  predicate Resolves(t: Table, ty: string) { Known(t, ty) || (IsArrayType(ty) && Known(t, Base(ty))) }

  predicate AllResolve(t: Table, types: seq<Field>) {
    forall i :: 0 <= i < |types| ==> Resolves(t, types[i].ty)
  }

  predicate Closed(t: Table) {
    TX in t && forall k :: k in t ==> AllResolve(t, t[k])
  }

  lemma ResolvesMonotone(t: Table, u: Table, types: seq<Field>)
    requires Extends(t, u) && TX in t && TX in u && AllResolve(t, types)
    ensures AllResolve(u, types)
  {
    hide IsTypeKey;
  }

  lemma ElementKnown(t: Table, ty: string, v: JSON, place: string)
    requires ElementConforms(t, ty, v, place)
    ensures Known(t, ty)
  {
    hide Lists, FieldConforms;
  }

  lemma ConformingResolves(t: Table, ty: string, v: JSON, place: string)
    requires FieldConforms(t, ty, v, place)
    ensures Resolves(t, ty)
  {
    hide ElementConforms;
    if v == Arr([]) {
      assert ty == "string" + "[]";
      ArrayOf("string");
    } else if v.Arr? {
      ElementKnown(t, Base(ty), v.items[0], place);
    } else {
      ElementKnown(t, ty, v, place);
    }
  }

  lemma EmptyArray(t: Table, place: string)
    ensures FieldConforms(t, "string[]", Arr([]), place)
  {
  }

  /** The type of an element, suffixed for an array, is the type of the field. */
  lemma FieldOfElement(t: Table, ty: string, v: JSON, place: string)
    requires v != Arr([]) && ElementConforms(t, ty, Element(v), place)
    ensures FieldConforms(t, ty + Suffix(v), v, place) && Supported(v)
  {
    hide Conforms;
    ArrayOf(ty);
    assert ty + "" == ty;
  }

  // ---- Fields -----------------------------------------------------------------------------------------

  /** The supported ones among some names, in the same order. */
  function SupportedNames(fields: map<string, JSON>, names: seq<string>): seq<string> {
    if names == [] then []
    else
      var n := names[|names| - 1];
      SupportedNames(fields, names[..|names| - 1]) + if n in fields && Supported(fields[n]) then [n] else []
  }

  lemma {:induction false} SupportedElements(fields: map<string, JSON>, names: seq<string>, n: string)
    ensures n in SupportedNames(fields, names) <==> n in names && n in fields && Supported(fields[n])
  {
    if names != [] {
      var front := names[..|names| - 1];
      assert names == front + [names[|names| - 1]];
      SupportedElements(fields, front, n);
    }
  }

  lemma {:induction false} SupportedDescending(fields: map<string, JSON>, names: seq<string>)
    requires Descending(names)
    ensures Descending(SupportedNames(fields, names))
  {
    hide Less, Supported;
    if names != [] {
      var last := names[|names| - 1];
      var front := names[..|names| - 1];
      SupportedDescending(fields, front);
      var s := SupportedNames(fields, front);
      forall i | 0 <= i < |s| ensures Less(last, s[i]) {
        SupportedElements(fields, front, s[i]);
        var j :| 0 <= j < |front| && front[j] == s[i];
        assert names[j] == s[i];
      }
    }
  }

  /** Entries for exactly the supported ones among `names`, of the right types. */
  ghost predicate Describes(t: Table, types: seq<Field>, fields: map<string, JSON>, names: seq<string>, place: string) {
    && Names(types) == SupportedNames(fields, names)
    && forall i :: 0 <= i < |types| ==> types[i].name in fields && FieldConforms(t, types[i].ty, fields[types[i].name], place + "." + types[i].name)
  }

  lemma DescribesMonotone(t: Table, u: Table, types: seq<Field>, fields: map<string, JSON>, names: seq<string>, place: string)
    requires Extends(t, u) && Describes(t, types, fields, names, place)
    ensures Describes(u, types, fields, names, place)
  {
    hide Extends, FieldConforms, SupportedNames;
    forall i | 0 <= i < |types| ensures types[i].name in fields && FieldConforms(u, types[i].ty, fields[types[i].name], place + "." + types[i].name) {
      FieldConformsMonotone(t, u, types[i].ty, fields[types[i].name], place + "." + types[i].name);
    }
  }

  lemma DescribesAll(t: Table, types: seq<Field>, fields: map<string, JSON>, place: string)
    requires Describes(t, types, fields, DescendingNames(fields.Keys), place)
    ensures Lists(types, fields)
  {
    hide FieldConforms, Less, Supported, SupportedNames, Descending;
    var names := DescendingNames(fields.Keys);
    SupportedDescending(fields, names);
    forall n { SupportedElements(fields, names, n); }
  }

  lemma DescribesAppend(t: Table, types: seq<Field>, more: seq<Field>, fields: map<string, JSON>, names: seq<string>, place: string)
    requires names != [] && Describes(t, types, fields, names[..|names| - 1], place)
    requires Entry(t, more, fields, names[|names| - 1], place)
    ensures Describes(t, types + more, fields, names, place)
  {
    hide FieldConforms, Supported;
    assert Names(types + more) == Names(types) + Names(more);
    assert more != [] ==> Names(more) == [more[0].name];
  }

  /** What one field contributes: an entry if it is supported, nothing otherwise. */
  ghost predicate Entry(t: Table, more: seq<Field>, fields: map<string, JSON>, name: string, place: string) {
    if name in fields && Supported(fields[name])
    then |more| == 1 && more[0].name == name && FieldConforms(t, more[0].ty, fields[name], place + "." + name)
    else more == []
  }

  // ---- Inference ----------------------------------------------------------------------------------------

  ghost predicate Sound(t: Table, r: (Table, Option<string>), root: string, prefix: string, payload: JSON) {
    && Grows(t, r.0)
    && (r.1.Some? ==> Conforms(r.0, r.1.value, payload, if prefix == "_" then root else Camel(prefix, Part), prefix))
    && (r.1.Some? && Below(prefix) ==> Sanitized(r.1.value) == r.1.value)
    && (Closed(t) ==> Closed(r.0))
  }

  /** What is inferred for an object describes it, in a table that extends the one before. */
  lemma {:induction false} InferSound(t: Table, root: string, prefix: string, payload: JSON)
    requires Place(root, prefix)
    ensures Sound(t, Infer(t, root, prefix, payload), root, prefix, payload)
    decreases payload, 2
  {
    hide AddTypes, InferFields, Place, Extends, Grows, Conforms, Closed, Sanitized, Describes;
    if payload.Obj? {
      var names := DescendingNames(payload.fields.Keys);
      InferFieldsSound(t, root, prefix, payload, names);
      var (u, types) := InferFields(t, root, prefix, payload, names);
      if types.Some? {
        InferKey(u, root, prefix, payload, types.value);
        var (w, key) := AddTypes(u, TypeDefForPrefix(prefix, root), types.value);
        GrowsTransitive(t, u, w);
      }
    } else {
      GrowsSelf(t);
    }
  }

  lemma InferKey(u: Table, root: string, prefix: string, payload: JSON, types: seq<Field>)
    requires Place(root, prefix) && payload.Obj?
    requires Describes(u, types, payload.fields, DescendingNames(payload.fields.Keys), prefix)
    ensures Sound(u, AddTypes(u, TypeDefForPrefix(prefix, root), types), root, prefix, payload)
  {
    hide Extends, Grows, FieldConforms, Lists, Less, Sanitized, SupportedNames, Closed, FirstFit, IsTypeKey, DescendingNames, Bears, Camel;
    var def := TypeDefForPrefix(prefix, root);
    SanitizedIsCamel(prefix);
    TypeDefStarts(root, prefix);
    AddTypesFinds(u, def, types);
    var (w, key) := AddTypes(u, def, types);
    DescribesMonotone(u, w, types, payload.fields, DescendingNames(payload.fields.Keys), prefix);
    DescribesAll(w, types, payload.fields, prefix);
    if key.Some? && Below(prefix) { KeyFixed(prefix, FirstFit(u, def, types, 0).value); }
    if Closed(u) {
      ClosedHasTx(u);
      ClosedAdd(u, w, types, payload.fields, DescendingNames(payload.fields.Keys), prefix);
    }
  }

  lemma ClosedHasTx(t: Table)
    requires Closed(t)
    ensures TX in t
  {
  }

  lemma ClosedAdd(u: Table, w: Table, types: seq<Field>, fields: map<string, JSON>, names: seq<string>, place: string)
    requires Extends(u, w) && Closed(u) && Describes(w, types, fields, names, place)
    requires TX in w && forall k :: k in w ==> (k in u && u[k] == w[k]) || w[k] == types
    ensures Closed(w)
  {
    hide Extends, FieldConforms, SupportedNames, AllResolve;
    forall k | k in w ensures AllResolve(w, w[k]) {
      if k in u && u[k] == w[k] {
        ResolvesMonotone(u, w, u[k]);
      } else {
        AllDescribedResolve(w, types, fields, names, place);
      }
    }
  }

  lemma AllDescribedResolve(t: Table, types: seq<Field>, fields: map<string, JSON>, names: seq<string>, place: string)
    requires Describes(t, types, fields, names, place)
    ensures AllResolve(t, types)
  {
    hide FieldConforms, SupportedNames, Resolves;
    forall i | 0 <= i < |types| ensures Resolves(t, types[i].ty) {
      ConformingResolves(t, types[i].ty, fields[types[i].name], place + "." + types[i].name);
    }
  }

  lemma {:induction false} InferFieldsSound(t: Table, root: string, prefix: string, payload: JSON, names: seq<string>)
    requires Place(root, prefix) && payload.Obj?
    ensures var (u, types) := InferFields(t, root, prefix, payload, names);
      Grows(t, u) && (Closed(t) ==> Closed(u)) && (types.Some? ==> Describes(u, types.value, payload.fields, names, prefix))
    decreases payload, 1, |names|
  {
    hide Place, Extends, Grows, Closed, Describes, Entry, InferField;
    if names == [] {
      GrowsSelf(t);
      DescribesNothing(t, payload.fields, prefix);
    } else {
      var front := names[..|names| - 1];
      InferFieldsSound(t, root, prefix, payload, front);
      var (u, types) := InferFields(t, root, prefix, payload, front);
      if types.Some? {
        InferFieldSound(u, root, prefix, payload, names[|names| - 1]);
        var (w, more) := InferField(u, root, prefix, payload, names[|names| - 1]);
        GrowsTransitive(t, u, w);
        if more.Some? {
          DescribesMonotone(u, w, types.value, payload.fields, front, prefix);
          DescribesAppend(w, types.value, more.value, payload.fields, names, prefix);
        }
      }
    }
  }

  lemma DescribesNothing(t: Table, fields: map<string, JSON>, place: string)
    ensures Describes(t, [], fields, [], place)
  {
  }

  lemma {:induction false} InferFieldSound(t: Table, root: string, prefix: string, payload: JSON, name: string)
    requires Place(root, prefix) && payload.Obj?
    ensures var (u, more) := InferField(t, root, prefix, payload, name);
      Grows(t, u) && (Closed(t) ==> Closed(u)) && (more.Some? ==> Entry(u, more.value, payload.fields, name, prefix))
    decreases payload, 0
  {
    hide Extends, Grows, Closed, Conforms, FieldConforms, Sanitized, Infer, Below, Camel;
    GrowsSelf(t);
    var place := prefix + "." + name;
    EmptyArray(t, place);
    if name in payload.fields && payload.fields[name] != Arr([]) {
      var v := payload.fields[name];
      var e := Element(v);
      if EthType(e) != "" { FieldOfElement(t, EthType(e), v, place); }
      if e.Obj? {
        SubPrefixBelow(root, prefix, name);
        InferSound(t, root, SubPrefix(prefix, name), e);
        var (u, key) := Infer(t, root, SubPrefix(prefix, name), e);
        if key.Some? { FieldOfElement(u, key.value, v, place); }
      }
    }
  }

  // ---- Inferring again ----------------------------------------------------------------------------------

  /** In any table that extends the outcome, the same definition is found at the same key. */
  lemma AddTypesAgain(u: Table, typeDef: string, types: seq<Field>, w: Table)
    requires StartsWithType(typeDef) && AddTypes(u, typeDef, types).1.Some? && Extends(AddTypes(u, typeDef, types).0, w)
    ensures AddTypes(w, typeDef, types) == (w, AddTypes(u, typeDef, types).1)
  {
    hide FirstFit, IsTypeKey, WithIndex;
    var k := FirstFit(u, typeDef, types, 0).value;
    forall j: nat ensures WithIndex(typeDef, j) != TX {
      WithIndexIsTypeKey(typeDef, j);
      TxIsNoTypeKey(WithIndex(typeDef, j));
    }
    forall j | 0 <= j < k ensures Taken(w, typeDef, types, j) { assert Taken(u, typeDef, types, j); }
    assert !Taken(u, typeDef, types, k);
    FirstFitIs(w, typeDef, types, k);
  }

  /** Inferring an object again, in the resulting table or any later one, returns the same key and
      leaves the table alone. */
  lemma {:induction false} InferAgain(t: Table, root: string, prefix: string, payload: JSON, w: Table)
    requires Place(root, prefix) && Infer(t, root, prefix, payload).1.Some? && Extends(Infer(t, root, prefix, payload).0, w)
    ensures Infer(w, root, prefix, payload) == (w, Infer(t, root, prefix, payload).1)
    decreases payload, 2
  {
    hide AddTypes, InferFields, Extends, Grows;
    var names := DescendingNames(payload.fields.Keys);
    var (u, types) := InferFields(t, root, prefix, payload, names);
    var def := TypeDefForPrefix(prefix, root);
    TypeDefStarts(root, prefix);
    AddTypesFinds(u, def, types.value);
    ExtendsTransitive(u, AddTypes(u, def, types.value).0, w);
    InferFieldsAgain(t, root, prefix, payload, names, w);
    AddTypesAgain(u, def, types.value, w);
  }

  lemma {:induction false} InferFieldsAgain(t: Table, root: string, prefix: string, payload: JSON, names: seq<string>, w: Table)
    requires Place(root, prefix) && payload.Obj? && InferFields(t, root, prefix, payload, names).1.Some?
    requires Extends(InferFields(t, root, prefix, payload, names).0, w)
    ensures InferFields(w, root, prefix, payload, names) == (w, InferFields(t, root, prefix, payload, names).1)
    decreases payload, 1, |names|
  {
    hide Place, InferField, Extends, Grows;
    if names != [] {
      var front, last := names[..|names| - 1], names[|names| - 1];
      var (u, types) := InferFields(t, root, prefix, payload, front);
      InferFieldSound(u, root, prefix, payload, last);
      ExtendsTransitive(u, InferField(u, root, prefix, payload, last).0, w);
      InferFieldsAgain(t, root, prefix, payload, front, w);
      InferFieldAgain(u, root, prefix, payload, last, w);
    }
  }

  lemma {:induction false} InferFieldAgain(t: Table, root: string, prefix: string, payload: JSON, name: string, w: Table)
    requires Place(root, prefix) && payload.Obj? && InferField(t, root, prefix, payload, name).1.Some?
    requires Extends(InferField(t, root, prefix, payload, name).0, w)
    ensures InferField(w, root, prefix, payload, name) == (w, InferField(t, root, prefix, payload, name).1)
    decreases payload, 0
  {
    hide Extends, Sanitized, Infer, Below;
    if name in payload.fields && payload.fields[name] != Arr([]) {
      var e := Element(payload.fields[name]);
      if e.Obj? {
        SubPrefixBelow(root, prefix, name);
        InferAgain(t, root, SubPrefix(prefix, name), e, w);
      }
    }
  }

  // ---- Failure ----------------------------------------------------------------------------------------------

  /** Every key of a name is in use. */
  predicate Exhausted(t: Table, typeDef: string) {
    forall k :: 0 <= k < MAX_DUPLICATES ==> WithIndex(typeDef, k) in t
  }

  /** Inference of an object fails only by exhausting a name. */
  lemma {:induction false} InferFails(t: Table, root: string, prefix: string, payload: JSON) returns (def: string)
    requires payload.Obj? && Infer(t, root, prefix, payload).1.None?
    ensures Exhausted(Infer(t, root, prefix, payload).0, def)
    ensures Place(root, prefix) ==> StartsWithType(def)
    decreases payload, 2
  {
    hide InferFields, WithIndex;
    var names := DescendingNames(payload.fields.Keys);
    var (u, types) := InferFields(t, root, prefix, payload, names);
    if types.None? {
      def := InferFieldsFails(t, root, prefix, payload, names);
    } else {
      def := TypeDefForPrefix(prefix, root);
      if Place(root, prefix) { TypeDefStarts(root, prefix); }
      AddTypesFails(u, def, types.value);
      forall k | 0 <= k < MAX_DUPLICATES ensures WithIndex(def, k) in u { assert Taken(u, def, types.value, k); }
    }
  }

  lemma {:induction false} InferFieldsFails(t: Table, root: string, prefix: string, payload: JSON, names: seq<string>) returns (def: string)
    requires payload.Obj? && InferFields(t, root, prefix, payload, names).1.None?
    ensures Exhausted(InferFields(t, root, prefix, payload, names).0, def)
    ensures Place(root, prefix) ==> StartsWithType(def)
    decreases payload, 1, |names|
  {
    hide InferField, Exhausted;
    var front, last := names[..|names| - 1], names[|names| - 1];
    var (u, types) := InferFields(t, root, prefix, payload, front);
    if types.None? {
      def := InferFieldsFails(t, root, prefix, payload, front);
    } else {
      def := InferFieldFails(u, root, prefix, payload, last);
    }
  }

  lemma {:induction false} InferFieldFails(t: Table, root: string, prefix: string, payload: JSON, name: string) returns (def: string)
    requires payload.Obj? && InferField(t, root, prefix, payload, name).1.None?
    ensures Exhausted(InferField(t, root, prefix, payload, name).0, def)
    ensures Place(root, prefix) ==> StartsWithType(def)
    decreases payload, 0
  {
    hide Infer, Exhausted, Sanitized, StartsWithType;
    if Place(root, prefix) { SubPrefixBelow(root, prefix, name); }
    def := InferFails(t, root, SubPrefix(prefix, name), Element(payload.fields[name]));
  }
}
