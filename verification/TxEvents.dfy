/** What the node learns about an executed transaction from its result code and events
    (rpc/types/events.go, x/evm/types/events.go). */
module TxEvents {
  import opened GoInt
  import opened Decimal
  import opened Options

  const EVENT_ETHEREUM_TX: string := "ethereum_tx"
  const EVENT_TX_RECEIPT: string := "tx_receipt"

  const KEY_TX_HASH: string := "ethereumTxHash"
  const KEY_TX_INDEX: string := "txIndex"
  const KEY_RECEIPT_TX_HASH: string := "evmTxHash"
  const KEY_RECEIPT_TX_INDEX: string := "txIdx"
  const KEY_RECEIPT_VM_ERROR: string := "error"

  datatype Attribute = Attribute(key: string, value: string)

  /** `gasUsed` is what decoding the event as a receipt yields: None when that fails. */
  datatype Event = Event(kind: string, attributes: seq<Attribute>, gasUsed: Option<uint64>)

  datatype ExecTxResult = ExecTxResult(code: uint32, events: seq<Event>)

  /** `hash` is kept as the text of the attribute. */
  datatype ParsedTx = ParsedTx(hash: string, ethTxIndex: int32, failed: bool)

  datatype ParseResult = Parsed(p: Option<ParsedTx>) | ParseError

  // ---- What the events say ----------------------------------------------------------------

  predicate HasKind(events: seq<Event>, kind: string) {
    exists i :: 0 <= i < |events| && events[i].kind == kind
  }

  predicate HasKey(attrs: seq<Attribute>, key: string) {
    exists i :: 0 <= i < |attrs| && attrs[i].key == key
  }

  /** Some receipt event reports a VM error. */
  predicate HasVmError(events: seq<Event>) {
    exists i :: 0 <= i < |events| && events[i].kind == EVENT_TX_RECEIPT && HasKey(events[i].attributes, KEY_RECEIPT_VM_ERROR)
  }

  /** The attribute that holds the transaction index in an event of this kind. */
  function IndexKey(kind: string): string {
    if kind == EVENT_ETHEREUM_TX then KEY_TX_INDEX else KEY_RECEIPT_TX_INDEX
  }

  function HashKey(kind: string): string {
    if kind == EVENT_ETHEREUM_TX then KEY_TX_HASH else KEY_RECEIPT_TX_HASH
  }

  predicate Relevant(e: Event) {
    e.kind == EVENT_ETHEREUM_TX || e.kind == EVENT_TX_RECEIPT
  }

  predicate BadIndexIn(kind: string, attrs: seq<Attribute>) {
    exists i :: 0 <= i < |attrs| && attrs[i].key == IndexKey(kind) && ParseUint(attrs[i].value, 0x8000_0000).None?
  }

  /** Some index attribute is not a 31-bit number. */
  predicate BadIndex(events: seq<Event>) {
    exists i :: 0 <= i < |events| && Relevant(events[i]) && BadIndexIn(events[i].kind, events[i].attributes)
  }

  predicate ReachedExecution(events: seq<Event>) {
    HasKind(events, EVENT_ETHEREUM_TX) || HasKind(events, EVENT_TX_RECEIPT)
  }

  /** A transaction counts as failed unless it was admitted, produced a receipt, and the receipt
      reports no VM error. */
  predicate Failed(result: ExecTxResult) {
    || result.code != 0
    || !HasKind(result.events, EVENT_ETHEREUM_TX)
    || !HasKind(result.events, EVENT_TX_RECEIPT)
    || HasVmError(result.events)
  }

  /** Dropped before the ante handler because the block had no gas left. */
  predicate Dropped(result: ExecTxResult) {
    result.code != 0 && !HasKind(result.events, EVENT_ETHEREUM_TX)
  }

  method TxWasDroppedPreAnteHandleDueToBlockGasExcess(res: ExecTxResult) returns (r: bool)
    ensures r <==> Dropped(res)
  {
    if res.code == 0 { return false; }
    for i := 0 to |res.events|
      invariant forall j :: 0 <= j < i ==> res.events[j].kind != EVENT_ETHEREUM_TX
    {
      if res.events[i].kind == EVENT_ETHEREUM_TX { return false; }
    }
    return true;
  }

  // ---- ParseTxResult ----------------------------------------------------------------------

  method FillTxAttribute(tx: ParsedTx, kind: string, attr: Attribute) returns (tx': ParsedTx, ok: bool)
    requires kind == EVENT_ETHEREUM_TX || kind == EVENT_TX_RECEIPT
    ensures ok <==> !BadIndexIn(kind, [attr])
    ensures ok ==> (tx'.failed <==> tx.failed || (kind == EVENT_TX_RECEIPT && attr.key == KEY_RECEIPT_VM_ERROR))
    ensures ok ==> tx'.ethTxIndex == LastIndexIn(kind, [attr], tx.ethTxIndex)
    ensures ok ==> tx'.hash == LastHashIn(kind, [attr], tx.hash)
  {
    tx', ok := tx, true;
    assert [attr][0] == attr && [attr][..0] == [];
    if kind == EVENT_ETHEREUM_TX {
      if attr.key == KEY_TX_HASH {
        tx' := tx.(hash := attr.value);
      } else if attr.key == KEY_TX_INDEX {
        var n := ParseUint(attr.value, 0x8000_0000);
        if n.None? { return tx, false; }
        tx' := tx.(ethTxIndex := n.value);
      }
    } else if kind == EVENT_TX_RECEIPT {
      if attr.key == KEY_RECEIPT_TX_HASH {
        tx' := tx.(hash := attr.value);
      } else if attr.key == KEY_RECEIPT_TX_INDEX {
        var n := ParseUint(attr.value, 0x8000_0000);
        if n.None? { return tx, false; }
        tx' := tx.(ethTxIndex := n.value);
      } else if attr.key == KEY_RECEIPT_VM_ERROR {
        tx' := tx.(failed := true);
      }
    }
  }

  method FillTxAttributes(tx: ParsedTx, kind: string, attrs: seq<Attribute>) returns (tx': ParsedTx, ok: bool)
    requires kind == EVENT_ETHEREUM_TX || kind == EVENT_TX_RECEIPT
    ensures ok <==> !BadIndexIn(kind, attrs)
    ensures ok ==> (tx'.failed <==> tx.failed || (kind == EVENT_TX_RECEIPT && HasKey(attrs, KEY_RECEIPT_VM_ERROR)))
    ensures ok ==> tx'.ethTxIndex == LastIndexIn(kind, attrs, tx.ethTxIndex)
    ensures ok ==> tx'.hash == LastHashIn(kind, attrs, tx.hash)
  {
    tx', ok := tx, true;
    for i := 0 to |attrs|
      invariant ok && !BadIndexIn(kind, attrs[..i])
      invariant tx'.failed <==> tx.failed || (kind == EVENT_TX_RECEIPT && HasKey(attrs[..i], KEY_RECEIPT_VM_ERROR))
      invariant tx'.ethTxIndex == LastIndexIn(kind, attrs[..i], tx.ethTxIndex)
      invariant tx'.hash == LastHashIn(kind, attrs[..i], tx.hash)
    {
      AttributesStep(kind, attrs, i, tx.ethTxIndex);
      tx', ok := FillTxAttribute(tx', kind, attrs[i]);
      if !ok {
        assert attrs[..|attrs|] == attrs;
        return;
      }
    }
    assert attrs[..|attrs|] == attrs;
  }

  /** The last index attribute, if there is one. */
  function LastIndexIn(kind: string, attrs: seq<Attribute>, before: int32): int32 {
    if attrs == [] then before
    else
      var last := attrs[|attrs| - 1];
      if last.key == IndexKey(kind) && ParseUint(last.value, 0x8000_0000).Some? then ParseUint(last.value, 0x8000_0000).value
      else LastIndexIn(kind, attrs[..|attrs| - 1], before)
  }

  function LastIndex(events: seq<Event>): int32 {
    if events == [] then -1
    else
      var last, before := events[|events| - 1], LastIndex(events[..|events| - 1]);
      if Relevant(last) then LastIndexIn(last.kind, last.attributes, before) else before
  }

  /** The last hash attribute, if there is one. */
  function LastHashIn(kind: string, attrs: seq<Attribute>, before: string): string {
    if attrs == [] then before
    else
      var last := attrs[|attrs| - 1];
      if last.key == HashKey(kind) then last.value else LastHashIn(kind, attrs[..|attrs| - 1], before)
  }

  function LastHash(events: seq<Event>): string {
    if events == [] then ""
    else
      var last, before := events[|events| - 1], LastHash(events[..|events| - 1]);
      if Relevant(last) then LastHashIn(last.kind, last.attributes, before) else before
  }

  lemma AttributesStep(kind: string, attrs: seq<Attribute>, i: nat, before: int32)
    requires i < |attrs|
    ensures BadIndexIn(kind, attrs[..i + 1]) <==> BadIndexIn(kind, attrs[..i]) || BadIndexIn(kind, [attrs[i]])
    ensures BadIndexIn(kind, attrs[..i + 1]) ==> BadIndexIn(kind, attrs)
    ensures HasKey(attrs[..i + 1], KEY_RECEIPT_VM_ERROR) <==> HasKey(attrs[..i], KEY_RECEIPT_VM_ERROR) || attrs[i].key == KEY_RECEIPT_VM_ERROR
    ensures attrs[..i + 1][..i] == attrs[..i] && attrs[..i + 1][i] == attrs[i]
  {
    hide ParseUint;
    var a, b := attrs[..i + 1], attrs[..i];
    assert a[i] == attrs[i] && [attrs[i]][0] == attrs[i];
    assert forall k :: 0 <= k < i ==> a[k] == b[k] == attrs[k];
  }

  /** Reads a result. The index is refused unless every index attribute is a 31-bit number; there
      is nothing to report if neither kind of event occurs. */
  method ParseTxResult(result: ExecTxResult, txGiven: bool) returns (r: ParseResult)
    ensures r.ParseError? <==> BadIndex(result.events)
    ensures r.Parsed? ==> (r.p.Some? <==> ReachedExecution(result.events))
    ensures r.Parsed? && r.p.Some? ==> r.p.value.ethTxIndex == LastIndex(result.events) && r.p.value.hash == LastHash(result.events)
    ensures r.Parsed? && r.p.Some? ==> (r.p.value.failed <==> Failed(if txGiven then result else result.(code := 0)))
  {
    var p: Option<ParsedTx> := None;
    var foundEventEthTx, foundEventReceipt := false, false;
    var events := result.events;
    for i := 0 to |events|
      invariant !BadIndex(events[..i])
      invariant foundEventEthTx <==> HasKind(events[..i], EVENT_ETHEREUM_TX)
      invariant foundEventReceipt <==> HasKind(events[..i], EVENT_TX_RECEIPT)
      invariant p.Some? <==> ReachedExecution(events[..i])
      invariant p.None? ==> LastIndex(events[..i]) == -1 && LastHash(events[..i]) == "" && !HasVmError(events[..i])
      invariant p.Some? ==> p.value.ethTxIndex == LastIndex(events[..i]) && p.value.hash == LastHash(events[..i])
      invariant p.Some? ==> (p.value.failed <==> HasVmError(events[..i]))
    {
      EventsStep(events, i);
      hide HasKind, HasVmError, BadIndex, LastIndex, LastHash, BadIndexIn, LastIndexIn, LastHashIn, HasKey;
      if events[i].kind == EVENT_ETHEREUM_TX {
        foundEventEthTx := true;
      } else if events[i].kind == EVENT_TX_RECEIPT {
        foundEventReceipt := true;
      } else {
        continue;
      }
      if p.None? {
        p := Some(ParsedTx("", -1, false));
      }
      var filled, ok := FillTxAttributes(p.value, events[i].kind, events[i].attributes);
      if !ok { return ParseError; }
      p := Some(filled);
    }
    assert events[..|events|] == events;
    if p.Some? {
      if result.code != 0 && txGiven {
        p := Some(p.value.(failed := true));
      } else if !foundEventEthTx {
        p := Some(p.value.(failed := true));
      } else if !foundEventReceipt {
        p := Some(p.value.(failed := true));
      }
    }
    return Parsed(p);
  }

  lemma EventsStep(events: seq<Event>, i: nat)
    requires i < |events|
    ensures forall kind :: HasKind(events[..i + 1], kind) <==> HasKind(events[..i], kind) || events[i].kind == kind
    ensures BadIndex(events[..i + 1]) <==>
            BadIndex(events[..i]) || (Relevant(events[i]) && BadIndexIn(events[i].kind, events[i].attributes))
    ensures BadIndex(events[..i + 1]) ==> BadIndex(events)
    ensures HasVmError(events[..i + 1]) <==>
            HasVmError(events[..i]) || (events[i].kind == EVENT_TX_RECEIPT && HasKey(events[i].attributes, KEY_RECEIPT_VM_ERROR))
    ensures LastIndex(events[..i + 1]) ==
            if Relevant(events[i]) then LastIndexIn(events[i].kind, events[i].attributes, LastIndex(events[..i]))
            else LastIndex(events[..i])
    ensures LastHash(events[..i + 1]) ==
            if Relevant(events[i]) then LastHashIn(events[i].kind, events[i].attributes, LastHash(events[..i]))
            else LastHash(events[..i])
  {
    hide BadIndexIn, HasKey, LastIndexIn;
    var a, b := events[..i + 1], events[..i];
    assert a[i] == events[i] && a[..i] == b;
    assert forall k :: 0 <= k < i ==> a[k] == b[k] == events[k];
  }
}
