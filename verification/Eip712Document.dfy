/** The whole of a sign document against its primary type (ethereum/eip712/eip712.go). */
module Eip712Document {
  import opened Decimal
  import opened Options
  import opened Json
  import opened TypeNames
  import opened Eip712Payload
  import opened Eip712Types
  import opened Eip712Conforms
  import opened Eip712Create

  /** A value of a type: an array element by element, an object with exactly the fields of its definition. */
  ghost predicate HasType(t: Table, ty: string, v: JSON)
    decreases v
  {
    match v
    case Null => false
    case Bool(_) => ty == "bool"
    case Number(_) => ty == "int64" || ty == "uint256"
    case Str(_) => ty == "string"
    case Arr(items) => IsArrayType(ty) && forall i :: 0 <= i < |items| ==> HasType(t, Base(ty), items[i])
    case Obj(fields) =>
      && ty in t && (forall k :: k in fields <==> k in Names(t[ty]))
      && forall i :: 0 <= i < |t[ty]| && t[ty][i].name in fields ==> HasType(t, t[ty][i].ty, fields[t[ty][i].name])
  }

  // ---- The sign document -----------------------------------------------------------------------------

  predicate IsCoin(v: JSON) {
    v.Obj? && v.fields.Keys == {"denom", "amount"} && v.fields["denom"].Str? && v.fields["amount"].Str?
  }

  predicate IsFee(v: JSON) {
    && v.Obj? && v.fields.Keys == {"amount", "gas"} && v.fields["gas"].Str? && v.fields["amount"].Arr?
    && forall i :: 0 <= i < |v.fields["amount"].items| ==> IsCoin(v.fields["amount"].items[i])
  }

  /** The Amino sign document of a transaction without fee payer, fee granter and timeout. */
  predicate IsSignDoc(payload: JSON) {
    && HasMessages(payload) && payload.fields.Keys == {"account_number", "chain_id", "fee", "memo", "msgs", "sequence"}
    && payload.fields["account_number"].Str? && payload.fields["chain_id"].Str? && payload.fields["memo"].Str?
    && payload.fields["sequence"].Str? && IsFee(payload.fields["fee"])
  }

  lemma CoinTyped(t: Table, v: JSON)
    requires Extends(InitialTypes(), t) && IsCoin(v)
    ensures HasType(t, "Coin", v)
  {
    var coin := InitialTypes()["Coin"];
    assert t["Coin"] == coin;
    assert Names(coin) == ["denom", "amount"];
  }

  lemma FeeTyped(t: Table, v: JSON)
    requires Extends(InitialTypes(), t) && IsFee(v)
    ensures HasType(t, "Fee", v)
  {
    var fee := InitialTypes()["Fee"];
    assert t["Fee"] == fee;
    assert Names(fee) == ["amount", "gas"];
    var items := v.fields["amount"].items;
    assert "Coin[]" == "Coin" + "[]";
    ArrayOf("Coin");
    forall i | 0 <= i < |items| ensures HasType(t, "Coin", items[i]) { CoinTyped(t, items[i]); }
  }

  /** The entries of Tx: the five fields of every document, and the messages. */
  predicate Enumerates(tx: seq<Field>, n: nat) {
    && |tx| == 5 + n && Names(tx)[..5] == ["account_number", "chain_id", "fee", "memo", "sequence"]
    && forall i :: 0 <= i < n ==> tx[5 + i].name == MsgField(i)
  }

  lemma TxEnumerates(t: Table, doc: JSON, n: nat)
    requires TypesFor(t, doc, n)
    ensures Enumerates(t[TX], n)
  {
    hide AllResolve, Extends, MsgField, Conforms;
    assert Names(t[TX])[..5] == Names(InitialTypes()[TX]);
    forall i | 0 <= i < n ensures t[TX][5 + i].name == MsgField(i) { assert Typed(t, doc, i); }
  }

  lemma FieldListed(tx: seq<Field>, payload: JSON, fields: map<string, JSON>, k: string)
    requires IsSignDoc(payload) && IsFlattening(payload, fields) && Enumerates(tx, |Messages(payload)|)
    ensures k in fields <==> k in Names(tx)
  {
    hide MsgField;
    var names, own := Names(tx), ["account_number", "chain_id", "fee", "memo", "sequence"];
    assert forall i :: 0 <= i < 5 ==> names[i] == names[..5][i] == own[i];
    if k in fields {
      if k in payload.fields {
        assert k in own;
      } else {
        var i :| 0 <= i < |Messages(payload)| && MsgField(i) == k;
        assert names[5 + i] == k;
      }
    }
    if k in names {
      var i :| 0 <= i < |names| && names[i] == k;
      if i >= 5 { assert k == tx[5 + (i - 5)].name == MsgField(i - 5); }
    }
  }

  lemma ListedOnce(tx: seq<Field>, payload: JSON, i: nat, j: nat)
    requires IsSignDoc(payload) && Flattenable(payload) && Enumerates(tx, |Messages(payload)|) && i < j < |tx|
    ensures tx[i].name != tx[j].name
  {
    hide MsgField;
    if j >= 5 {
      assert tx[j].name == tx[5 + (j - 5)].name == MsgField(j - 5) && Movable(payload, j - 5);
      if i >= 5 {
        assert tx[i].name == tx[5 + (i - 5)].name == MsgField(i - 5);
        if MsgField(i - 5) == MsgField(j - 5) { MsgFieldInjective(i - 5, j - 5); }
      } else {
        assert tx[i].name == Names(tx)[..5][i];
        assert tx[i].name in payload.fields;
      }
    } else {
      assert tx[i].name == Names(tx)[..5][i] && tx[j].name == Names(tx)[..5][j];
    }
  }

  lemma OwnFields(t: Table, payload: JSON, fields: map<string, JSON>, i: nat)
    requires IsSignDoc(payload) && IsFlattening(payload, fields) && Extends(InitialTypes(), t) && i < 5
    ensures var f := InitialTypes()[TX][i]; f.name in fields && HasType(t, f.ty, fields[f.name])
  {
    FeeTyped(t, payload.fields["fee"]);
    hide Extends, MsgField, IsFee;
  }

  /** The typed data of a sign document: Tx lists exactly the fields of the flattened document, each once; its
      own fields have their types, and every message has one. */
  lemma SignDocTyped(payload: JSON, fields: map<string, JSON>)
    requires IsSignDoc(payload) && Flattenable(payload) && IsFlattening(payload, fields)
    requires Create(Obj(fields), |Messages(payload)|).1
    ensures var t := Create(Obj(fields), |Messages(payload)|).0;
      && TypesFor(t, Obj(fields), |Messages(payload)|)
      && (forall k :: k in fields <==> k in Names(t[TX]))
      && (forall i, j :: 0 <= i < j < |t[TX]| ==> t[TX][i].name != t[TX][j].name)
      && forall i :: 0 <= i < 5 ==> t[TX][i].name in fields && HasType(t, t[TX][i].ty, fields[t[TX][i].name])
  {
    var n := |Messages(payload)|;
    var t := Create(Obj(fields), n).0;
    CreateSound(Obj(fields), n);
    TxEnumerates(t, Obj(fields), n);
    hide Create, Extends, Closed, Enumerates, HasType, IsFlattening, IsSignDoc, Flattenable, InitialTypes;
    forall k ensures k in fields <==> k in Names(t[TX]) { FieldListed(t[TX], payload, fields, k); }
    forall i, j | 0 <= i < j < |t[TX]| ensures t[TX][i].name != t[TX][j].name { ListedOnce(t[TX], payload, i, j); }
    forall i | 0 <= i < 5 ensures t[TX][i].name in fields && HasType(t, t[TX][i].ty, fields[t[TX][i].name]) {
      OwnFields(t, payload, fields, i);
      assert t[TX][i] == t[TX][..5][i];
    }
  }

  // ---- The domain ------------------------------------------------------------------------------------------

  /** createEIP712Domain, for a chain id below 2^63 */
  function Domain(chainID: nat): JSON {
    Obj(map["name" := Str("Cosmos Web3"), "version" := Str("1.0.0"), "chainId" := Number(Print(chainID)),
            "verifyingContract" := Str("cosmos"), "salt" := Str("0")])
  }

  lemma DomainTyped(t: Table, chainID: nat)
    requires Extends(InitialTypes(), t)
    ensures HasType(t, "EIP712Domain", Domain(chainID))
  {
    hide Print;
    var domain := InitialTypes()["EIP712Domain"];
    assert t["EIP712Domain"] == domain;
    assert Names(domain) == ["name", "version", "chainId", "verifyingContract", "salt"];
  }
}
