/** Flattening of the messages of a sign document (ethereum/eip712/message.go). */
module Eip712Payload {
  import opened Decimal
  import opened Options
  import opened Json

  /** msgFieldForIndex */
  function MsgField(i: nat): string { "msg" + Print(i) }

  datatype FlattenError = NoMessages | MessagesNotArray | FieldTaken(index: nat) | MessageNotObject(index: nat)

  datatype FlattenResult = Flattened(payload: JSON, count: nat) | FlattenFailed(error: FlattenError)

  lemma MsgFieldInjective(i: nat, j: nat)
    requires MsgField(i) == MsgField(j)
    ensures i == j
  {
    hide Print;
    assert Print(i) == MsgField(i)[3..] && Print(j) == MsgField(j)[3..];
    PrintInjective(i, j);
  }

  lemma MsgFieldIsNotMsgs(i: nat)
    ensures MsgField(i) != "msgs"
  {
    hide Print;
    assert MsgField(i)[3] == Print(i)[0];
    assert IsDigit(MsgField(i)[3]);
  }

  /** getPayloadMessages */
  method GetPayloadMessages(payload: JSON) returns (msgs: seq<JSON>, error: Option<FlattenError>)
    ensures error.None? <==> HasMessages(payload)
    ensures error.None? ==> msgs == Messages(payload)
    ensures error.Some? ==> error.value == if payload.Obj? && "msgs" in payload.fields then MessagesNotArray else NoMessages
  {
    msgs := [];
    if !payload.Obj? || "msgs" !in payload.fields { return msgs, Some(NoMessages); }
    var raw := payload.fields["msgs"];
    if !raw.Arr? { return msgs, Some(MessagesNotArray); }
    return raw.items, None;
  }

  predicate HasMessages(payload: JSON) {
    payload.Obj? && "msgs" in payload.fields && payload.fields["msgs"].Arr?
  }

  function Messages(payload: JSON): seq<JSON>
    requires HasMessages(payload)
  {
    payload.fields["msgs"].items
  }

  /** Message `i` can be moved to its own field. */
  predicate Movable(payload: JSON, i: nat)
    requires HasMessages(payload) && i < |Messages(payload)|
  {
    MsgField(i) !in payload.fields && Messages(payload)[i].Obj?
  }

  /** The payloads that are accepted. */
  predicate Flattenable(payload: JSON) {
    HasMessages(payload) && forall i :: 0 <= i < |Messages(payload)| ==> Movable(payload, i)
  }

  /** The messages below `n` are at their fields, and nothing else has changed. */
  predicate MovedUpTo(payload: JSON, fields: map<string, JSON>, n: nat)
    requires HasMessages(payload) && n <= |Messages(payload)|
  {
    && (forall i :: 0 <= i < n ==> MsgField(i) in fields && fields[MsgField(i)] == Messages(payload)[i])
    && (forall k :: k in payload.fields && (forall i :: 0 <= i < n ==> MsgField(i) != k) ==> k in fields && fields[k] == payload.fields[k])
    && (forall k :: k in fields ==> k in payload.fields || exists i :: 0 <= i < n && MsgField(i) == k)
  }

  lemma MoveNext(payload: JSON, fields: map<string, JSON>, n: nat)
    requires HasMessages(payload) && n < |Messages(payload)| && MovedUpTo(payload, fields, n)
    ensures MovedUpTo(payload, fields[MsgField(n) := Messages(payload)[n]], n + 1)
    ensures MsgField(n) in fields <==> MsgField(n) in payload.fields
  {
    hide MsgField;
    forall i | 0 <= i < n ensures MsgField(i) != MsgField(n) {
      if MsgField(i) == MsgField(n) { MsgFieldInjective(i, n); }
    }
  }

  /** FlattenPayloadMessages accepts exactly the payloads whose messages are objects and whose
      fields leave every `msg{i}` free; then message i sits at `msg{i}`, `msgs` is gone and every
      other field is as before. Otherwise the first message in the way is reported. */
  method FlattenPayloadMessages(payload: JSON) returns (r: FlattenResult)
    ensures r.Flattened? <==> Flattenable(payload)
    ensures r.Flattened? ==> r.count == |Messages(payload)| && r.payload.Obj? && IsFlattening(payload, r.payload.fields)
    ensures r.FlattenFailed? ==>
      match r.error
      case NoMessages => !payload.Obj? || "msgs" !in payload.fields
      case MessagesNotArray => payload.Obj? && "msgs" in payload.fields && !payload.fields["msgs"].Arr?
      case FieldTaken(i) => FirstInTheWay(payload, i) && MsgField(i) in payload.fields
      case MessageNotObject(i) => FirstInTheWay(payload, i) && MsgField(i) !in payload.fields
  {
    hide MsgField;
    var msgs, error := GetPayloadMessages(payload);
    if error.Some? { return FlattenFailed(error.value); }
    var flattened := payload.fields;
    for i := 0 to |msgs|
      invariant MovedUpTo(payload, flattened, i)
      invariant forall j :: 0 <= j < i ==> Movable(payload, j)
    {
      MoveNext(payload, flattened, i);
      assert Movable(payload, i) <==> MsgField(i) !in flattened && msgs[i].Obj?;
      if MsgField(i) in flattened { return FlattenFailed(FieldTaken(i)); }
      if !msgs[i].Obj? { return FlattenFailed(MessageNotObject(i)); }
      flattened := flattened[MsgField(i) := msgs[i]];
    }
    RemoveMsgs(payload, flattened);
    flattened := flattened - {"msgs"};
    return Flattened(Obj(flattened), |msgs|);
  }

  predicate FirstInTheWay(payload: JSON, i: nat) {
    && HasMessages(payload) && i < |Messages(payload)| && !Movable(payload, i)
    && forall j :: 0 <= j < i ==> Movable(payload, j)
  }

  /** What the flattened fields are. */
  predicate IsFlattening(payload: JSON, fields: map<string, JSON>)
    requires HasMessages(payload)
  {
    && "msgs" !in fields
    && (forall i :: 0 <= i < |Messages(payload)| ==> MsgField(i) in fields && fields[MsgField(i)] == Messages(payload)[i])
    && (forall k :: k in payload.fields && k != "msgs" ==> k in fields && fields[k] == payload.fields[k])
    && (forall k :: k in fields ==> k in payload.fields || IsMsgField(k, |Messages(payload)|))
  }

  predicate IsMsgField(k: string, n: nat) {
    exists i :: 0 <= i < n && MsgField(i) == k
  }

  lemma RemoveMsgs(payload: JSON, fields: map<string, JSON>)
    requires Flattenable(payload) && MovedUpTo(payload, fields, |Messages(payload)|)
    ensures IsFlattening(payload, fields - {"msgs"})
  {
    hide MsgField;
    var n := |Messages(payload)|;
    forall i: nat ensures MsgField(i) != "msgs" { MsgFieldIsNotMsgs(i); }
    forall k, i | k in payload.fields && 0 <= i < n ensures MsgField(i) != k { assert Movable(payload, i); }
    forall k | k in fields ensures k in payload.fields || IsMsgField(k, n) { }
  }

  // ---- Nothing is lost --------------------------------------------------------------------------

  /** Puts `n` messages back into their array. */
  function Unflatten(fields: map<string, JSON>, n: nat): JSON
    requires forall i :: 0 <= i < n ==> MsgField(i) in fields
  {
    Obj((map k | k in fields && !IsMsgField(k, n) :: fields[k])["msgs" := Arr(seq(n, i requires 0 <= i < n => fields[MsgField(i)]))])
  }

  /** The flattened object and the message count determine the payload. */
  lemma UnflattenFlattened(payload: JSON, fields: map<string, JSON>)
    requires Flattenable(payload) && IsFlattening(payload, fields)
    ensures Unflatten(fields, |Messages(payload)|) == payload
  {
    hide MsgField;
    var n := |Messages(payload)|;
    var back := Unflatten(fields, n).fields;
    assert back["msgs"].items == Messages(payload);
    forall k ensures k in back <==> k in payload.fields
    {
      if IsMsgField(k, n) {
        var i :| 0 <= i < n && MsgField(i) == k;
        assert Movable(payload, i);
        MsgFieldIsNotMsgs(i);
      }
    }
    forall k | k in payload.fields ensures back[k] == payload.fields[k] { }
    assert back == payload.fields;
  }

  /** Two accepted payloads with the same flattening and message count are the same payload. */
  lemma FlatteningInjective(p: JSON, q: JSON, fields: map<string, JSON>)
    requires Flattenable(p) && Flattenable(q) && IsFlattening(p, fields) && IsFlattening(q, fields)
    requires |Messages(p)| == |Messages(q)|
    ensures p == q
  {
    hide IsFlattening, Unflatten, Flattenable;
    UnflattenFlattened(p, fields);
    UnflattenFlattened(q, fields);
  }
}
