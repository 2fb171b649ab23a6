/** The plain scan of a block's Ethereum messages, and the lookup by block and index that tries
    the transaction index first (rpc/backend/blocks.go, rpc/backend/tx_info.go). */
module BlockScan {
  import opened GoInt
  import opened CosmosTx
  import opened TxEvents
  import opened TxResultCodec
  import opened BlockIndex
  import opened IndexRun
  import KV = KVIndexer

  predicate SingleEthAt(b: Block, i: nat)
    ensures SingleEthAt(b, i) ==> i < |b.txs|
  {
    i < |b.txs| && b.txs[i].Decoded? && SingleEthereum(b.txs[i].tx)
  }

  /** The transactions the scan lists. */
  predicate Listed(b: Block, i: nat)
    ensures Listed(b, i) ==> SingleEthAt(b, i)
  {
    SingleEthAt(b, i) && !Dropped(b.results[i])
  }

  function TxAt(b: Block, i: nat): EthTx
    requires SingleEthAt(b, i)
  {
    b.txs[i].tx.msgs[0].tx
  }

  lemma NumberedIsListed(b: Block, i: nat)
    requires Numbered(b, i)
    ensures Listed(b, i) && TxAt(b, i) == EthTxAt(b, i)
  {
  }

  function Scan(b: Block, n: nat): seq<EthTx>
    requires n <= |b.txs|
  {
    if n == 0 then [] else Scan(b, n - 1) + if Listed(b, n - 1) then [TxAt(b, n - 1)] else []
  }

  /** Where a listed transaction stands in the scan. */
  function ScanPosition(b: Block, i: nat): nat
    requires i <= |b.txs|
  {
    |Scan(b, i)|
  }

  lemma {:induction false} ScanAt(b: Block, i: nat, n: nat)
    requires i < n <= |b.txs|
    ensures ScanPosition(b, i) <= ScanPosition(b, n) <= n
    ensures Listed(b, i) ==> ScanPosition(b, i) < ScanPosition(b, n) && Scan(b, n)[ScanPosition(b, i)] == TxAt(b, i)
    decreases n
  {
    hide Listed, TxAt;
    if i < n - 1 { ScanAt(b, i, n - 1); } else { ScanBound(b, i); }
  }

  lemma {:induction false} ScanBound(b: Block, n: nat)
    requires n <= |b.txs|
    ensures ScanPosition(b, n) <= n
  {
    hide Listed, TxAt;
    if n > 0 { ScanBound(b, n - 1); }
  }

  /** Every place in the scan belongs to a listed transaction. */
  lemma {:induction false} ScanHolder(b: Block, n: nat, k: nat) returns (i: nat)
    requires n <= |b.txs| && k < |Scan(b, n)|
    ensures i < n && Listed(b, i) && ScanPosition(b, i) == k && Scan(b, n)[k] == TxAt(b, i)
    decreases n
  {
    hide Listed, TxAt;
    if k < |Scan(b, n - 1)| {
      i := ScanHolder(b, n - 1, k);
    } else {
      i := n - 1;
    }
  }

  method EthMsgsFromCometBFTBlock(b: Block) returns (result: seq<EthTx>)
    ensures result == Scan(b, |b.txs|)
  {
    result := [];
    for i := 0 to |b.txs|
      invariant result == Scan(b, i)
    {
      var dropped := TxWasDroppedPreAnteHandleDueToBlockGasExcess(b.results[i]);
      if dropped { continue; }
      if b.txs[i].Undecodable? { continue; }
      var msgs := b.txs[i].tx.msgs;
      if |msgs| == 1 {
        if msgs[0].MsgEthereumTx? {
          result := result + [msgs[0].tx];
        }
      }
    }
  }

  // ---- Ordinals against the scan ---------------------------------------------------------------

  /** Every listed transaction before `n` passes the lane test and parses. */
  predicate Regular(b: Block, n: nat) {
    forall j :: 0 <= j < n && Listed(b, j) ==> Numbered(b, j)
  }

  lemma {:induction false} OrdinalBelowPosition(b: Block, i: nat)
    requires i <= |b.txs|
    ensures Ordinal(b, i) <= ScanPosition(b, i)
    ensures Ordinal(b, i) == ScanPosition(b, i) <==> Regular(b, i)
  {
    hide Numbered, Listed, TxAt;
    if i > 0 {
      OrdinalBelowPosition(b, i - 1);
      if Numbered(b, i - 1) { NumberedIsListed(b, i - 1); }
    }
  }

  /** The stored ordinal of a transaction is its position in the scan exactly when every listed
      transaction before it passes the lane test and parses. */
  lemma OrdinalIsScanPosition(b: Block, i: nat)
    requires i < |b.txs| && Fits(b)
    ensures RecordAt(b, i).ethTxIndex == ScanPosition(b, i) <==> Regular(b, i)
  {
    hide Ordinal, Regular;
    SmallOrdinal(b, i);
    OrdinalBelowPosition(b, i);
  }

  // ---- Lookup by block and index -------------------------------------------------------------------

  datatype Answer = Message(tx: EthTx) | Nothing | Panics

  /** The path without an index entry: the scan, indexed by a signed `int`. */
  function ScanAnswer(b: Block, idx: uint64): Answer {
    var i, msgs := Int64(idx), Scan(b, |b.txs|);
    if i >= |msgs| then Nothing else if i < 0 then Panics else Message(msgs[i])
  }

  /** The path with an index entry: the transaction it names. */
  function NamedAnswer(b: Block, txIndex: uint32): Answer {
    if txIndex >= |b.txs| then Panics
    else if b.txs[txIndex].Undecodable? then Nothing
    else if |b.txs[txIndex].tx.msgs| == 0 then Panics
    else if b.txs[txIndex].tx.msgs[0].MsgEthereumTx? then Message(b.txs[txIndex].tx.msgs[0].tx)
    else Nothing
  }

  function IndexedAnswer(db: Store, b: Block, idx: uint64): Answer {
    match GetByBlockAndIndex(db, b.height, Int32(idx))
    case Found(rec) => NamedAnswer(b, rec.txIndex)
    case _ => ScanAnswer(b, idx)
  }

  method GetTransactionByBlockAndIndex(indexer: KV.KVIndexer, b: Block, idx: uint64) returns (r: Answer)
    requires indexer.Valid()
    ensures r == IndexedAnswer(indexer.db, b, idx)
  {
    var res := indexer.GetByPosition(b.height, Int32(idx));
    if res.Found? {
      var rec := res.rec;
      if rec.txIndex >= |b.txs| { return Panics; }
      if b.txs[rec.txIndex].Undecodable? { return Nothing; }
      var tx := b.txs[rec.txIndex].tx;
      if |tx.msgs| == 0 { return Panics; }
      if !tx.msgs[0].MsgEthereumTx? { return Nothing; }
      return Message(tx.msgs[0].tx);
    } else {
      var i := Int64(idx);
      var ethMsgs := EthMsgsFromCometBFTBlock(b);
      if i >= |ethMsgs| { return Nothing; }
      if i < 0 { return Panics; }
      return Message(ethMsgs[i]);
    }
  }

  /** Some transaction of the block is in the index under this ordinal. */
  predicate HasOrdinal(b: Block, o: int) {
    exists i :: 0 <= i < |b.txs| && Persisted(b, i) && Ordinal(b, i) == o
  }

  lemma NamedAnswerAt(b: Block, i: nat)
    requires Numbered(b, i) && Fits(b)
    ensures NamedAnswer(b, RecordAt(b, i).txIndex) == Message(TxAt(b, i))
  {
    NumberedIsListed(b, i);
  }

  /** No hash stands at two places of the scan. */
  predicate DistinctScan(b: Block) {
    forall j, k :: 0 <= j < k < |Scan(b, |b.txs|)| ==> Scan(b, |b.txs|)[j].hash != Scan(b, |b.txs|)[k].hash
  }

  /** For a transaction in the index, the scan at its ordinal gives the same message if every listed
      transaction before it has an ordinal; and, with distinct hashes, only then. */
  lemma PathsMeet(b: Block, i: nat)
    requires Fits(b) && Persisted(b, i)
    ensures Regular(b, i) ==> ScanAnswer(b, Ordinal(b, i)) == NamedAnswer(b, RecordAt(b, i).txIndex)
    ensures DistinctScan(b) && ScanAnswer(b, Ordinal(b, i)) == NamedAnswer(b, RecordAt(b, i).txIndex) ==> Regular(b, i)
  {
    NamedAnswerAt(b, i);
    NumberedIsListed(b, i);
    hide Numbered, Listed, TxAt, NamedAnswer, Regular, Scan;
    OrdinalBelowPosition(b, i);
    ScanAt(b, i, |b.txs|);
    assert ScanAnswer(b, Ordinal(b, i)) == Message(Scan(b, |b.txs|)[Ordinal(b, i)]);
  }

  /** What the index has under the 32 bits kept of `idx`, if anything, is what the scan has at `idx`. */
  predicate Faithful(b: Block, idx: uint64) {
    forall i :: 0 <= i < |b.txs| && Persisted(b, i) && Ordinal(b, i) == Int32(idx) ==> idx < 0x1_0000_0000 && Regular(b, i)
  }

  /** After any run, the index does not change the answer if no transaction is stored under the low 32 bits
      of the index asked for, or the index is below 2^32 and every listed transaction before the stored one
      has an ordinal; and, with distinct hashes in the block, only then. From 2^32 on distinctness is not
      needed. */
  lemma IndexedAnswerIsScanAnswer(c: Chain, hs: seq<int64>, h: int64, idx: uint64)
    requires ValidChain(c) && (forall x :: x in hs ==> x in c) && DistinctHashes(c, Heights(hs)) && h in hs
    ensures Faithful(c[h], idx) ==> IndexedAnswer(Run(c, hs), c[h], idx) == ScanAnswer(c[h], idx)
    ensures (DistinctScan(c[h]) || idx >= 0x1_0000_0000) && IndexedAnswer(Run(c, hs), c[h], idx) == ScanAnswer(c[h], idx) ==>
            Faithful(c[h], idx)
  {
    var b, o := c[h], Int32(idx);
    hide Run, ScanAnswer, NamedAnswer, DistinctHashes, GetByBlockAndIndex, Numbered, ReachedExecution, Regular, DistinctScan;
    if HasOrdinal(b, o) {
      var i :| 0 <= i < |b.txs| && Persisted(b, i) && Ordinal(b, i) == o;
      SmallOrdinal(b, i);
      LookupsAgree(c, hs, h, i);
      PathsMeet(b, i);
      NamedAnswerAt(b, i);
      forall j | 0 <= j < |b.txs| && Persisted(b, j) && Ordinal(b, j) == o ensures j == i { OneHolder(b, i, j); }
      if idx >= 0x1_0000_0000 { ScanHasNothing(b, idx); } else { SmallIndex(idx); }
    } else if GetByBlockAndIndex(Run(c, hs), h, o).Found? {
      var i := LookupSound(c, hs, h, o);
      assert false;
    }
  }

  lemma OneHolder(b: Block, i: nat, j: nat)
    requires Numbered(b, i) && Numbered(b, j) && Ordinal(b, i) == Ordinal(b, j)
    ensures i == j
  {
    hide Numbered, Ordinal;
    if i < j { OrdinalIncreases(b, i, j); }
    if j < i { OrdinalIncreases(b, j, i); }
  }

  /** In particular it does not in a block whose listed transactions all have an ordinal, for any index
      below 2^32. */
  lemma RegularBlockAnswers(c: Chain, hs: seq<int64>, h: int64, idx: uint64)
    requires ValidChain(c) && (forall x :: x in hs ==> x in c) && DistinctHashes(c, Heights(hs)) && h in hs
    requires Regular(c[h], |c[h].txs|) && idx < 0x1_0000_0000
    ensures IndexedAnswer(Run(c, hs), c[h], idx) == ScanAnswer(c[h], idx)
  {
    hide Run, ScanAnswer, IndexedAnswer, DistinctHashes, Persisted, Listed, Numbered, Ordinal;
    IndexedAnswerIsScanAnswer(c, hs, h, idx);
  }

  /** Index 2^32 of an indexed block is answered with its first transaction; the scan has nothing there. */
  lemma LargeIndexIsAnswered(c: Chain, hs: seq<int64>, h: int64) returns (i: nat)
    requires ValidChain(c) && (forall x :: x in hs ==> x in c) && DistinctHashes(c, Heights(hs))
    requires h in hs && HasOrdinal(c[h], 0)
    ensures Persisted(c[h], i) && Ordinal(c[h], i) == 0 && Listed(c[h], i)
    ensures IndexedAnswer(Run(c, hs), c[h], 0x1_0000_0000) == Message(TxAt(c[h], i))
    ensures ScanAnswer(c[h], 0x1_0000_0000) == Nothing
  {
    var b := c[h];
    hide Run, NamedAnswer, DistinctHashes, GetByBlockAndIndex, ReachedExecution, Numbered, Listed, TxAt, ScanAnswer, Ordinal;
    i :| 0 <= i < |b.txs| && Persisted(b, i) && Ordinal(b, i) == 0;
    LookupsAgree(c, hs, h, i);
    NamedAnswerAt(b, i);
    NumberedIsListed(b, i);
    ScanHasNothing(b, 0x1_0000_0000);
  }

  lemma SmallIndex(idx: uint64)
    requires idx < 0x1_0000_0000 && Int32(idx) >= 0
    ensures Int32(idx) == idx
  {
  }

  lemma ScanHasNothing(b: Block, idx: uint64)
    requires Fits(b) && idx >= 0x1_0000_0000
    ensures !ScanAnswer(b, idx).Message? && (idx < 0x8000_0000_0000_0000 ==> ScanAnswer(b, idx) == Nothing)
  {
    ScanBound(b, |b.txs|);
  }
}
