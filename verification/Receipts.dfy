/** The two reconstructions of a missing receipt: in the block's receipt list
    (rpc/backend/blocks.go) and for a single transaction (rpc/backend/tx_info.go). */
module Receipts {
  import opened GoInt
  import opened Options
  import opened CosmosTx
  import opened TxEvents
  import opened TxResultCodec
  import opened BlockIndex
  import opened IndexRun
  import opened BlockScan
  import KV = KVIndexer

  datatype ReceiptEvent = NoReceipt | BadReceipt | GasUsed(gas: uint64)

  /** What the first receipt event says, if there is one. */
  function ReceiptOf(events: seq<Event>): ReceiptEvent {
    if events == [] then NoReceipt
    else if events[0].kind == EVENT_TX_RECEIPT then
      if events[0].gasUsed.Some? then GasUsed(events[0].gasUsed.value) else BadReceipt
    else ReceiptOf(events[1..])
  }

  method TxReceiptFromEvent(events: seq<Event>) returns (r: ReceiptEvent)
    ensures r == ReceiptOf(events)
  {
    for i := 0 to |events|
      invariant ReceiptOf(events) == ReceiptOf(events[i..])
    {
      if events[i].kind == EVENT_TX_RECEIPT {
        if events[i].gasUsed.None? { return BadReceipt; }
        return GasUsed(events[i].gasUsed.value);
      }
      assert events[i..][1..] == events[i + 1..];
    }
    return NoReceipt;
  }

  /** `Rebuilt` is a receipt put together by the node because the transaction left none. */
  datatype Receipt =
    | FromEvent(gasUsed: uint64)
    | Rebuilt(gasUsed: uint64, cumulativeGasUsed: uint64, transactionIndex: uint64)

  // ---- What the reconstructions should say ----------------------------------------------------------

  /** The gas a transaction is charged with: its receipt's, or its limit if it left none. */
  function GasOf(b: Block, i: nat): nat
    requires SingleEthAt(b, i)
  {
    match ReceiptOf(b.results[i].events)
    case GasUsed(g) => g
    case NoReceipt => TxAt(b, i).gas
    case BadReceipt => 0
  }

  /** The exact gas of the listed transactions before `i`. */
  function GasBefore(b: Block, i: nat): nat
    requires i <= |b.txs|
  {
    if i == 0 then 0 else GasBefore(b, i - 1) + if Listed(b, i - 1) then GasOf(b, i - 1) else 0
  }

  /** The exact gas of the dropped Ethereum transactions before `i`. */
  function DroppedGasBefore(b: Block, i: nat): nat
    requires i <= |b.txs|
  {
    if i == 0 then 0
    else DroppedGasBefore(b, i - 1) + if SingleEthAt(b, i - 1) && !Listed(b, i - 1) then GasOf(b, i - 1) else 0
  }

  function RebuiltInBlock(b: Block, i: nat): Receipt
    requires SingleEthAt(b, i)
  {
    Rebuilt(TxAt(b, i).gas, Uint64(TxAt(b, i).gas + GasBefore(b, i)), Uint64(ScanPosition(b, i)))
  }

  function RebuiltAlone(b: Block, i: nat): Receipt
    requires SingleEthAt(b, i)
  {
    var before := if Ordinal(b, i) > 0 then GasBefore(b, i) + DroppedGasBefore(b, i) else 0;
    Rebuilt(TxAt(b, i).gas, Uint64(TxAt(b, i).gas + before), Uint64(Int32(Ordinal(b, i))))
  }

  lemma {:induction false} NothingBeforeFirst(b: Block, i: nat)
    requires i <= |b.txs| && ScanPosition(b, i) == 0
    ensures GasBefore(b, i) == 0
  {
    hide Listed, GasOf, TxAt;
    if i > 0 { NothingBeforeFirst(b, i - 1); }
  }

  lemma SumsAgree(g: nat, x: nat, d: nat)
    ensures Uint64(g + x + d) == Uint64(g + x) <==> Uint64(d) == 0
  {
  }

  /** The two reconstructions agree exactly when every listed transaction before has an ordinal, and
      there is none or the dropped ones before weigh nothing. */
  lemma ReconstructionsAgree(b: Block, i: nat)
    requires Fits(b) && Listed(b, i)
    ensures RebuiltInBlock(b, i) == RebuiltAlone(b, i) <==>
      Regular(b, i) && (Ordinal(b, i) == 0 || Uint64(DroppedGasBefore(b, i)) == 0)
  {
    hide Listed, GasBefore, DroppedGasBefore, TxAt, Ordinal, Numbered, Regular;
    OrdinalBelowPosition(b, i);
    SmallOrdinal(b, i);
    ScanBound(b, i);
    assert Uint64(Int32(Ordinal(b, i))) == Uint64(ScanPosition(b, i)) <==> Ordinal(b, i) == ScanPosition(b, i);
    hide Uint64, ScanPosition;
    if Ordinal(b, i) == 0 {
      if ScanPosition(b, i) == 0 { NothingBeforeFirst(b, i); }
    } else {
      SumsAgree(TxAt(b, i).gas, GasBefore(b, i), DroppedGasBefore(b, i));
      assert TxAt(b, i).gas + (GasBefore(b, i) + DroppedGasBefore(b, i)) == TxAt(b, i).gas + GasBefore(b, i) + DroppedGasBefore(b, i);
    }
  }

  /** Dropped transactions form a suffix of the block. */
  predicate DroppedSuffix(b: Block) {
    forall i, j :: 0 <= i < j < |b.txs| && Dropped(b.results[i]) ==> Dropped(b.results[j])
  }

  lemma {:induction false} NoDroppedBefore(b: Block, i: nat)
    requires i <= |b.txs| && forall j :: 0 <= j < i ==> !Dropped(b.results[j])
    ensures DroppedGasBefore(b, i) == 0
  {
    hide Dropped, GasOf;
    if i > 0 { NoDroppedBefore(b, i - 1); }
  }

  /** In particular they agree in every block whose dropped transactions come last. */
  lemma ReconstructionsAgreeOnSuffix(b: Block, i: nat)
    requires Fits(b) && Regular(b, i) && Listed(b, i) && DroppedSuffix(b)
    ensures RebuiltInBlock(b, i) == RebuiltAlone(b, i)
  {
    assert !Dropped(b.results[i]);
    hide Dropped, RebuiltInBlock, RebuiltAlone, Regular;
    NoDroppedBefore(b, i);
    ReconstructionsAgree(b, i);
  }

  // ---- The conditions under which the index can be trusted -----------------------------------------

  /** No hash stands at two listed positions of the processed blocks. */
  ghost predicate DistinctListed(c: Chain, p: set<int64>) {
    forall h, i, h', i' ::
      h in p && h in c && h' in p && h' in c && Listed(c[h], i) && Listed(c[h'], i') && TxAt(c[h], i).hash == TxAt(c[h'], i').hash
      ==> h == h' && i == i'
  }

  /** `db` is the index of the processed blocks of a chain with distinct hashes, and `b` is one of
      them. */
  ghost predicate Indexed(db: Store, c: Chain, p: set<int64>, b: Block) {
    && ValidChain(c) && b.height in p && b.height in c && c[b.height] == b
    && IndexKeysExact(db, c, p) && HashKeysExact(db, c, p) && RecordsExact(db, c, p)
    && DistinctListed(c, p)
  }

  /** The hash of a listed transaction that was not persisted is not stored. */
  lemma Unstored(db: Store, c: Chain, p: set<int64>, b: Block, i: nat)
    requires Indexed(db, c, p, b) && Listed(b, i) && !Persisted(b, i)
    ensures TxHashKey(TxAt(b, i).hash) !in db
  {
    var k := TxHashKey(TxAt(b, i).hash);
    assert !IsIndexKey(k);
    hide Numbered, ReachedExecution, Listed, TxAt, HashKeyAt, RecordsExact, IndexKeysExact, IsIndexKey;
    if k in db {
      var h', i' :| At(c, p, h', i') && k == HashKeyAt(c[h'], i');
      NumberedIsListed(c[h'], i');
      KeyHash(c[h'], i', TxAt(b, i).hash);
      assert false;
    }
  }

  lemma KeyHash(b: Block, i: nat, hash: Hash)
    requires Numbered(b, i) && TxHashKey(hash) == HashKeyAt(b, i)
    ensures HashAt(b, i) == hash
  {
    assert HashKeyAt(b, i)[1..] == HashAt(b, i) && TxHashKey(hash)[1..] == hash;
  }

  /** The index answers for a listed transaction with its own record, or not at all. */
  lemma ListedLookup(db: Store, c: Chain, p: set<int64>, b: Block, i: nat)
    requires Indexed(db, c, p, b) && Listed(b, i)
    ensures GetByTxHash(db, TxAt(b, i).hash) == if Persisted(b, i) then Found(RecordAt(b, i)) else NotFound
  {
    hide Numbered, ReachedExecution, Listed, TxAt, ParseFrom, IndexKeysExact, HashKeysExact, RecordsExact, DistinctListed;
    if Persisted(b, i) {
      assert At(c, p, b.height, i);
      NumberedIsListed(b, i);
      LookupsInStore(db, c, p, b.height, i);
    } else {
      Unstored(db, c, p, b, i);
    }
  }

  lemma IndexedFits(db: Store, c: Chain, p: set<int64>, b: Block)
    requires Indexed(db, c, p, b)
    ensures Fits(b)
  {
  }

  // ---- The receipt list of a block ----------------------------------------------------------------

  datatype BlockReceipts = Listing(receipts: seq<Receipt>) | Error | Crash

  /** The receipt of listed transaction `i`, from its event or rebuilt. */
  predicate IsReceiptOf(b: Block, i: nat, r: Receipt)
    requires SingleEthAt(b, i)
  {
    match ReceiptOf(b.results[i].events)
    case GasUsed(g) => r == FromEvent(g)
    case NoReceipt => r == RebuiltInBlock(b, i)
    case BadReceipt => false
  }

  /** The receipts of the listed transactions before `n`, in scan order. */
  predicate ReceiptsUpTo(b: Block, n: nat, rs: seq<Receipt>)
    requires n <= |b.txs|
  {
    if n == 0 then rs == []
    else if Listed(b, n - 1) then
      |rs| > 0 && IsReceiptOf(b, n - 1, rs[|rs| - 1]) && ReceiptsUpTo(b, n - 1, rs[..|rs| - 1])
    else ReceiptsUpTo(b, n - 1, rs)
  }

  /** The sum of the gas of the receipts, in 64 bits. */
  function SumGas(rs: seq<Receipt>): nat {
    if rs == [] then 0 else SumGas(rs[..|rs| - 1]) + rs[|rs| - 1].gasUsed
  }

  lemma {:induction false} SumIsGasBefore(b: Block, n: nat, rs: seq<Receipt>)
    requires n <= |b.txs| && ReceiptsUpTo(b, n, rs)
    ensures SumGas(rs) == GasBefore(b, n) && |rs| == ScanPosition(b, n)
    decreases n
  {
    hide Listed, TxAt;
    if n > 0 {
      SumIsGasBefore(b, n - 1, if Listed(b, n - 1) then rs[..|rs| - 1] else rs);
    }
  }

  /** The inner loop: `receipt.CumulativeGasUsed += prevReceipt.GasUsed`. */
  method AddPrevious(gas: uint64, receipts: seq<Receipt>) returns (sum: uint64)
    ensures sum == Uint64(gas + SumGas(receipts))
  {
    sum := gas;
    for i := 0 to |receipts|
      invariant sum == Uint64(gas + SumGas(receipts[..i]))
    {
      assert receipts[..i + 1][..i] == receipts[..i];
      AddWrapped(gas + SumGas(receipts[..i]), receipts[i].gasUsed);
      sum := Uint64(sum + receipts[i].gasUsed);
    }
    assert receipts[..|receipts|] == receipts;
  }

  lemma AddWrapped(x: nat, y: nat)
    ensures Uint64(Uint64(x) + y) == Uint64(x + y)
  {
  }

  /** The receipt of the transaction the index names, given the receipts so far. */
  method ReceiptFor(b: Block, txIndex: uint32, tx: EthTx, receipts: seq<Receipt>) returns (r: Option<Receipt>)
    requires txIndex < |b.txs|
    ensures match ReceiptOf(b.results[txIndex].events)
            case GasUsed(g) => r == Some(FromEvent(g))
            case NoReceipt => r == Some(Rebuilt(tx.gas, Uint64(tx.gas + SumGas(receipts)), Uint64(|receipts|)))
            case BadReceipt => r == None
  {
    var icReceipt := TxReceiptFromEvent(b.results[txIndex].events);
    match icReceipt
    case BadReceipt => r := None;
    case GasUsed(g) => r := Some(FromEvent(g));
    case NoReceipt =>
      var cumulative := AddPrevious(tx.gas, receipts);
      r := Some(Rebuilt(tx.gas, cumulative, Uint64(|receipts|)));
  }

  datatype NextReceipt = Append(r: Receipt) | Pass | Fail | Stop

  /** The body of the receipt loop, for one message of the scan. */
  function Next(db: Store, b: Block, tx: EthTx, receipts: seq<Receipt>): NextReceipt {
    match GetByTxHash(db, tx.hash)
    case Found(rec) =>
      if rec.txIndex >= |b.txs| then Stop
      else if Dropped(b.results[rec.txIndex]) then Pass
      else (match ReceiptOf(b.results[rec.txIndex].events)
            case GasUsed(g) => Append(FromEvent(g))
            case NoReceipt => Append(Rebuilt(tx.gas, Uint64(tx.gas + SumGas(receipts)), Uint64(|receipts|)))
            case BadReceipt => Fail)
    case _ => Fail
  }

  method ReceiptStep(indexer: KV.KVIndexer, b: Block, tx: EthTx, receipts: seq<Receipt>) returns (r: NextReceipt)
    requires indexer.Valid()
    ensures r == Next(indexer.db, b, tx, receipts)
  {
    hide SumGas, ReceiptOf, GetByTxHash;
    var indexed := indexer.GetByHash(tx.hash);
    if !indexed.Found? { return Fail; }
    var txIndex := indexed.rec.txIndex;
    if txIndex >= |b.txs| { return Stop; }
    var dropped := TxWasDroppedPreAnteHandleDueToBlockGasExcess(b.results[txIndex]);
    if dropped { return Pass; }
    var receipt := ReceiptFor(b, txIndex, tx, receipts);
    if receipt.None? { return Fail; }
    return Append(receipt.value);
  }

  /** Transaction `i` is stored, and its receipt can be had. */
  predicate Reported(b: Block, i: nat) {
    Persisted(b, i) && !ReceiptOf(b.results[i].events).BadReceipt?
  }

  predicate AllReported(b: Block) {
    forall i :: 0 <= i < |b.txs| && Listed(b, i) ==> Reported(b, i)
  }

  /** On an indexed block the loop body appends the transaction's own receipt, or fails. */
  lemma StepAppends(db: Store, c: Chain, p: set<int64>, b: Block, i: nat, receipts: seq<Receipt>)
    requires Indexed(db, c, p, b) && Listed(b, i) && ReceiptsUpTo(b, i, receipts)
    ensures if Reported(b, i) then
              var r := Next(db, b, TxAt(b, i), receipts);
              r.Append? && IsReceiptOf(b, i, r.r) && ReceiptsUpTo(b, i + 1, receipts + [r.r])
            else Next(db, b, TxAt(b, i), receipts) == Fail
  {
    hide GetByTxHash, Persisted, GasBefore, Dropped, ReceiptOf, SumGas, Scan, Indexed, Numbered, TxAt;
    ListedLookup(db, c, p, b, i);
    SumIsGasBefore(b, i, receipts);
    IndexedFits(db, c, p, b);
    ListedIndex(b, i);
    if Reported(b, i) {
      var r := Next(db, b, TxAt(b, i), receipts);
      assert (receipts + [r.r])[..|receipts|] == receipts;
    }
  }

  lemma ListedIndex(b: Block, i: nat)
    requires Fits(b) && Listed(b, i)
    ensures RecordAt(b, i).txIndex == i && !Dropped(b.results[i])
  {
  }

  /** Unlisted transactions in between add nothing. */
  lemma {:induction false} UnlistedAddNothing(b: Block, n: nat, m: nat, rs: seq<Receipt>)
    requires n <= m <= |b.txs| && ReceiptsUpTo(b, n, rs) && ScanPosition(b, n) == ScanPosition(b, m)
    ensures ReceiptsUpTo(b, m, rs)
    decreases m
  {
    hide Listed, TxAt, IsReceiptOf;
    if n < m {
      ScanAt(b, m - 1, m);
      if n < m - 1 { ScanAt(b, n, m - 1); }
      UnlistedAddNothing(b, n, m - 1, rs);
    }
  }

  /** How far the receipt loop has come: `k` messages, all among the first `n` transactions. */
  ghost predicate Progress(b: Block, n: nat, k: nat, receipts: seq<Receipt>) {
    && n <= |b.txs| && ScanPosition(b, n) == k && ReceiptsUpTo(b, n, receipts)
    && (forall i :: 0 <= i < n && Listed(b, i) ==> Reported(b, i))
  }

  lemma ProgressStep(db: Store, c: Chain, p: set<int64>, b: Block, n: nat, k: nat, receipts: seq<Receipt>) returns (n': nat)
    requires Indexed(db, c, p, b) && Progress(b, n, k, receipts) && k < |Scan(b, |b.txs|)|
    ensures var r := Next(db, b, Scan(b, |b.txs|)[k], receipts);
            || (r.Append? && Progress(b, n', k + 1, receipts + [r.r]))
            || (r == Fail && !AllReported(b))
  {
    hide Indexed, Listed, TxAt, Next, ReceiptsUpTo, Reported, Scan, IsReceiptOf;
    var i := ScanHolder(b, |b.txs|, k);
    Advance(b, n, i, receipts);
    StepAppends(db, c, p, b, i, receipts);
    PositionAfter(b, i);
    n' := i + 1;
  }

  lemma ProgressEnd(b: Block, n: nat, receipts: seq<Receipt>)
    requires Progress(b, n, ScanPosition(b, |b.txs|), receipts)
    ensures AllReported(b) && ReceiptsUpTo(b, |b.txs|, receipts)
  {
    hide Listed, ReceiptsUpTo, Reported, Scan;
    Finish(b, n, receipts);
  }

  /** What the receipt loop makes of the messages from `k` on, on any store. */
  function ListFrom(db: Store, b: Block, k: nat, receipts: seq<Receipt>): BlockReceipts
    requires k <= |Scan(b, |b.txs|)|
    decreases |Scan(b, |b.txs|)| - k
  {
    if k == |Scan(b, |b.txs|)| then Listing(receipts)
    else
      match Next(db, b, Scan(b, |b.txs|)[k], receipts)
      case Append(r) => ListFrom(db, b, k + 1, receipts + [r])
      case Pass => ListFrom(db, b, k + 1, receipts)
      case Fail => Error
      case Stop => Crash
  }

  /** The receipts of a block. On the index of distinct transactions it succeeds exactly when every
      listed transaction is stored and its receipt parses, and then lists the receipts in scan
      order, each missing one rebuilt. */
  method BlockReceiptList(indexer: KV.KVIndexer, b: Block, ghost c: Chain, ghost p: set<int64>) returns (r: BlockReceipts)
    requires indexer.Valid()
    ensures r == ListFrom(indexer.db, b, 0, [])
    ensures Indexed(indexer.db, c, p, b) ==> (r.Listing? <==> AllReported(b)) && r != Crash
    ensures Indexed(indexer.db, c, p, b) && r.Listing? ==> ReceiptsUpTo(b, |b.txs|, r.receipts)
  {
    var ethMsgs := EthMsgsFromCometBFTBlock(b);
    var receipts: seq<Receipt> := [];
    ghost var n: nat := 0;
    ghost var good := Indexed(indexer.db, c, p, b);
    ReceiptsBegin(b);
    assert Progress(b, n, 0, receipts);
    hide Indexed, Next, Progress, AllReported, ReceiptsUpTo, Scan;
    for k := 0 to |ethMsgs|
      invariant good ==> Progress(b, n, k, receipts)
      invariant ListFrom(indexer.db, b, 0, []) == ListFrom(indexer.db, b, k, receipts)
    {
      if good { n := ProgressStep(indexer.db, c, p, b, n, k, receipts); }
      var step := ReceiptStep(indexer, b, ethMsgs[k], receipts);
      match step
      case Stop => return Crash;
      case Fail => return Error;
      case Pass =>
      case Append(receipt) =>
        receipts := receipts + [receipt];
    }
    if good { ProgressEnd(b, n, receipts); }
    return Listing(receipts);
  }

  lemma ReceiptsBegin(b: Block)
    ensures ReceiptsUpTo(b, 0, []) && ScanPosition(b, 0) == 0
  {
  }

  /** Between the last message handled and the next there is no listed transaction. */
  lemma Advance(b: Block, n: nat, i: nat, rs: seq<Receipt>)
    requires n <= |b.txs| && Listed(b, i) && ScanPosition(b, i) == ScanPosition(b, n) && ReceiptsUpTo(b, n, rs)
    ensures n <= i && ReceiptsUpTo(b, i, rs)
    ensures forall j :: n <= j < i ==> !Listed(b, j)
  {
    hide TxAt, ReceiptsUpTo, Listed, Scan;
    if i < n { ScanAt(b, i, n); }
    UnlistedAddNothing(b, n, i, rs);
    NoneListedBetween(b, n, i);
  }

  lemma NoneListedBetween(b: Block, n: nat, m: nat)
    requires n <= m <= |b.txs| && ScanPosition(b, n) == ScanPosition(b, m)
    ensures forall j :: n <= j < m ==> !Listed(b, j)
  {
    hide TxAt, Listed, Scan;
    forall j | n <= j < m ensures !Listed(b, j) {
      ScanAt(b, j, m);
      if n < j { ScanAt(b, n, j); }
    }
  }

  lemma PositionAfter(b: Block, i: nat)
    requires Listed(b, i)
    ensures ScanPosition(b, i + 1) == ScanPosition(b, i) + 1
  {
  }

  lemma Finish(b: Block, n: nat, rs: seq<Receipt>)
    requires n <= |b.txs| && ScanPosition(b, n) == ScanPosition(b, |b.txs|) && ReceiptsUpTo(b, n, rs)
    ensures ReceiptsUpTo(b, |b.txs|, rs)
    ensures forall j :: n <= j < |b.txs| ==> !Listed(b, j)
  {
    UnlistedAddNothing(b, n, |b.txs|, rs);
    NoneListedBetween(b, n, |b.txs|);
  }

  // ---- The receipt of one transaction ---------------------------------------------------------------

  datatype ReceiptAnswer = TheReceipt(r: Receipt) | NotAvailable | Failure | Crashed

  /** What one earlier transaction adds: its gas if it is a single Ethereum message, dropped or not, and
      nothing if its receipt does not parse. */
  method GasOfEarlier(b: Block, i: nat) returns (gas: uint64)
    requires i < |b.txs|
    ensures gas == if SingleEthAt(b, i) then GasOf(b, i) else 0
  {
    hide ReceiptOf;
    if b.txs[i].Undecodable? { return 0; }
    var msgs := b.txs[i].tx.msgs;
    if |msgs| != 1 { return 0; }
    if !msgs[0].MsgEthereumTx? { return 0; }
    var prevReceipt := TxReceiptFromEvent(b.results[i].events);
    match prevReceipt
    case BadReceipt => return 0;
    case NoReceipt => return msgs[0].tx.gas;
    case GasUsed(g) => return g;
  }

  /** The loop over the transactions before `n`. */
  method GasOfPrevious(b: Block, n: nat, gas: uint64) returns (sum: uint64)
    requires n <= |b.txs|
    ensures sum == Uint64(gas + GasBefore(b, n) + DroppedGasBefore(b, n))
  {
    sum := gas;
    for i := 0 to n
      invariant sum == Uint64(gas + GasBefore(b, i) + DroppedGasBefore(b, i))
    {
      PreviousStep(b, i, gas);
      hide GasBefore, DroppedGasBefore, Uint64, ReceiptOf, Listed, SingleEthAt, GasOf;
      var more := GasOfEarlier(b, i);
      sum := Uint64(sum + more);
    }
  }

  lemma PreviousStep(b: Block, i: nat, gas: nat)
    requires i < |b.txs|
    ensures Uint64(gas + GasBefore(b, i + 1) + DroppedGasBefore(b, i + 1)) ==
            Uint64(Uint64(gas + GasBefore(b, i) + DroppedGasBefore(b, i)) + if SingleEthAt(b, i) then GasOf(b, i) else 0)
  {
    hide SingleEthAt, Uint64, TxAt, ReceiptOf, GasOf;
    AddWrapped(gas + GasBefore(b, i) + DroppedGasBefore(b, i), if SingleEthAt(b, i) then GasOf(b, i) else 0);
  }

  /** The search by hash for a record that carries no ordinal: its place in the scan, or -1. */
  method FindInScan(b: Block, hash: Hash) returns (index: int32)
    ensures Fits(b) && index == -1 ==> forall k :: 0 <= k < |Scan(b, |b.txs|)| ==> Scan(b, |b.txs|)[k].hash != hash
    ensures Fits(b) && index != -1 ==> 0 <= index < |Scan(b, |b.txs|)| && Scan(b, |b.txs|)[index].hash == hash
    ensures Fits(b) && index != -1 ==> forall k :: 0 <= k < index ==> Scan(b, |b.txs|)[k].hash != hash
    ensures index == Int32(FirstWith(Scan(b, |b.txs|), hash, 0))
  {
    var msgs := EthMsgsFromCometBFTBlock(b);
    ScanBound(b, |b.txs|);
    for i := 0 to |msgs|
      invariant forall k :: 0 <= k < i ==> msgs[k].hash != hash
      invariant FirstWith(msgs, hash, 0) == FirstWith(msgs, hash, i)
    {
      if msgs[i].hash == hash { return Int32(i); }
    }
    return -1;
  }

  function FirstWith(msgs: seq<EthTx>, hash: Hash, i: nat): int
    requires i <= |msgs|
    decreases |msgs| - i
  {
    if i == |msgs| then -1 else if msgs[i].hash == hash then i else FirstWith(msgs, hash, i + 1)
  }

  function ReceiptWith(b: Block, rec: TxRecord, tx: EthTx): ReceiptAnswer
    requires rec.txIndex < |b.txs|
  {
    match ReceiptOf(b.results[rec.txIndex].events)
    case BadReceipt => Failure
    case GasUsed(g) => TheReceipt(FromEvent(g))
    case NoReceipt =>
      var before := if rec.ethTxIndex > 0 then GasBefore(b, rec.txIndex) + DroppedGasBefore(b, rec.txIndex) else 0;
      TheReceipt(Rebuilt(tx.gas, Uint64(tx.gas + before), Uint64(rec.ethTxIndex)))
  }

  /** What GetTransactionReceipt answers once the record, block and message are at hand. */
  method ReceiptAlone(b: Block, rec: TxRecord, tx: EthTx) returns (r: ReceiptAnswer)
    requires rec.txIndex < |b.txs|
    ensures r == ReceiptWith(b, rec, tx)
  {
    hide GasBefore, DroppedGasBefore, ReceiptOf;
    var icReceipt := TxReceiptFromEvent(b.results[rec.txIndex].events);
    match icReceipt
    case BadReceipt => r := Failure;
    case GasUsed(g) => r := TheReceipt(FromEvent(g));
    case NoReceipt =>
      var cumulativeGasUsed := tx.gas;
      if rec.ethTxIndex > 0 {
        cumulativeGasUsed := GasOfPrevious(b, rec.txIndex, tx.gas);
      }
      r := TheReceipt(Rebuilt(tx.gas, cumulativeGasUsed, Uint64(rec.ethTxIndex)));
  }

  /** What should be answered for listed transaction `i` alone. */
  function AloneAnswer(b: Block, i: nat): ReceiptAnswer
    requires SingleEthAt(b, i)
  {
    if !Persisted(b, i) then NotAvailable
    else
      match ReceiptOf(b.results[i].events)
      case BadReceipt => Failure
      case GasUsed(g) => TheReceipt(FromEvent(g))
      case NoReceipt => TheReceipt(RebuiltAlone(b, i))
  }

  /** What is answered on any store and any chain of blocks. A record without an ordinal gets its place in the
      scan. */
  function AnswerOf(db: Store, chain: Chain, hash: Hash): ReceiptAnswer {
    match GetByTxHash(db, hash)
    case Found(rec) =>
      if rec.height !in chain then NotAvailable
      else
        var b := chain[rec.height];
        var index := if rec.ethTxIndex == -1 then Int32(FirstWith(Scan(b, |b.txs|), hash, 0)) else rec.ethTxIndex;
        if index == -1 then Failure
        else if rec.txIndex >= |b.txs| then Crashed
        else if Dropped(b.results[rec.txIndex]) then NotAvailable
        else if b.txs[rec.txIndex].Undecodable? then Failure
        else
          var msgs := b.txs[rec.txIndex].tx.msgs;
          if msgs == [] || !msgs[0].MsgEthereumTx? then Crashed
          else ReceiptWith(b, rec.(ethTxIndex := index), msgs[0].tx)
    case _ => NotAvailable
  }

  /** The receipt of the transaction with this hash. For transaction `i` of an indexed block `h` it
      is the one of its event, or rebuilt; a transaction that was not stored has none. */
  method GetTransactionReceipt(indexer: KV.KVIndexer, chain: Chain, hash: Hash, ghost p: set<int64>, ghost h: int64, ghost i: nat)
    returns (r: ReceiptAnswer)
    requires indexer.Valid()
    ensures r == AnswerOf(indexer.db, chain, hash)
    ensures h in chain && Indexed(indexer.db, chain, p, chain[h]) && Listed(chain[h], i) && TxAt(chain[h], i).hash == hash ==>
            r == AloneAnswer(chain[h], i)
  {
    hide GetByTxHash, GasBefore, DroppedGasBefore, ReceiptOf, Persisted, Indexed, Dropped, Ordinal, FirstWith, ReceiptWith, AloneAnswer;
    ghost var known := h in chain && Indexed(indexer.db, chain, p, chain[h]) && Listed(chain[h], i) && TxAt(chain[h], i).hash == hash;
    if known { ListedAnswer(indexer.db, chain, p, h, i); }
    var res := indexer.GetByHash(hash);
    if !res.Found? { return NotAvailable; }
    var rec := res.rec;
    if rec.height !in chain { return NotAvailable; }
    var b := chain[rec.height];
    if rec.ethTxIndex == -1 {
      var index := FindInScan(b, hash);
      rec := rec.(ethTxIndex := index);
    }
    if rec.ethTxIndex == -1 { return Failure; }
    if rec.txIndex >= |b.txs| { return Crashed; }
    var dropped := TxWasDroppedPreAnteHandleDueToBlockGasExcess(b.results[rec.txIndex]);
    if dropped { return NotAvailable; }
    if b.txs[rec.txIndex].Undecodable? { return Failure; }
    var msgs := b.txs[rec.txIndex].tx.msgs;
    if |msgs| == 0 || !msgs[0].MsgEthereumTx? { return Crashed; }
    r := ReceiptAlone(b, rec, msgs[0].tx);
  }

  lemma ListedAnswer(db: Store, chain: Chain, p: set<int64>, h: int64, i: nat)
    requires h in chain && Indexed(db, chain, p, chain[h]) && Listed(chain[h], i)
    ensures AnswerOf(db, chain, TxAt(chain[h], i).hash) == AloneAnswer(chain[h], i)
  {
    hide GetByTxHash, GasBefore, DroppedGasBefore, ReceiptOf, Persisted, Indexed, Dropped, Ordinal, FirstWith, RecordAt, Scan, Uint64;
    RecordOfListed(db, chain, p, h, i);
  }

  lemma RecordOfListed(db: Store, c: Chain, p: set<int64>, h: int64, i: nat)
    requires h in c && Indexed(db, c, p, c[h]) && Listed(c[h], i)
    ensures Persisted(c[h], i) ==> GetByTxHash(db, TxAt(c[h], i).hash) == Found(RecordAt(c[h], i))
    ensures !Persisted(c[h], i) ==> GetByTxHash(db, TxAt(c[h], i).hash) == NotFound
    ensures RecordAt(c[h], i).height == h && RecordAt(c[h], i).txIndex == i && !Dropped(c[h].results[i])
    ensures RecordAt(c[h], i).ethTxIndex == Ordinal(c[h], i)
  {
    hide GetByTxHash, Persisted, TxAt, IndexKeysExact, HashKeysExact, RecordsExact, DistinctListed;
    ListedLookup(db, c, p, c[h], i);
    ListedIndex(c[h], i);
    SmallOrdinal(c[h], i);
  }
}
