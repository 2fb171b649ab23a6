/** The receipt list of a block against the receipts of its transactions, after any run of the index; and
    blocks on which two answers of the node differ. */
module ReceiptAgreement {
  import opened Options
  import Decimal
  import opened GoInt
  import opened CosmosTx
  import opened TxEvents
  import opened BlockIndex
  import opened IndexRun
  import opened BlockScan
  import opened Receipts
  import KV = KVIndexer

  /** Distinct listed transactions have distinct hashes in the index. */
  lemma ListedDistinct(c: Chain, p: set<int64>)
    requires DistinctListed(c, p)
    ensures DistinctHashes(c, p)
  {
    hide Listed, TxAt, HashAt, Numbered;
    forall h, i, h', i' | At(c, p, h, i) && At(c, p, h', i') && HashAt(c[h], i) == HashAt(c[h'], i')
      ensures h == h' && i == i'
    {
      ListedHash(c[h], i);
      ListedHash(c[h'], i');
    }
  }

  lemma ListedHash(b: Block, i: nat)
    requires Persisted(b, i)
    ensures Listed(b, i) && TxAt(b, i).hash == HashAt(b, i)
  {
    NumberedIsListed(b, i);
  }

  /** What the receipt calls rely on holds after every run over blocks with distinct transactions. */
  lemma IndexedAfterRun(c: Chain, hs: seq<int64>, h: int64)
    requires ValidChain(c) && (forall x :: x in hs ==> x in c) && DistinctListed(c, Heights(hs)) && h in hs
    ensures Indexed(Run(c, hs), c, Heights(hs), c[h])
  {
    ListedDistinct(c, Heights(hs));
    hide Run, IndexKeysExact, HashKeysExact, RecordsExact, DistinctListed, DistinctHashes;
    RunKeys(c, hs);
    RunRecords(c, hs);
  }

  /** The entry of a listed transaction in the list is its own receipt. */
  lemma {:induction false} ListEntry(b: Block, n: nat, rs: seq<Receipt>, i: nat)
    requires i < n <= |b.txs| && Listed(b, i) && ReceiptsUpTo(b, n, rs)
    ensures ScanPosition(b, i) < |rs| && IsReceiptOf(b, i, rs[ScanPosition(b, i)])
    decreases n
  {
    hide Listed, IsReceiptOf, Scan;
    SumIsGasBefore(b, n, rs);
    ScanAt(b, i, n);
    if i == n - 1 {
      PositionAfter(b, i);
    } else {
      ListEntry(b, n - 1, if Listed(b, n - 1) then rs[..|rs| - 1] else rs, i);
    }
  }

  /** The two answers for a transaction agree exactly when its receipt was emitted, or the
      reconstructions agree. */
  lemma EntryIsAnswer(b: Block, rs: seq<Receipt>, i: nat)
    requires Fits(b) && Listed(b, i) && AllReported(b) && ReceiptsUpTo(b, |b.txs|, rs)
    ensures ScanPosition(b, i) < |rs|
    ensures TheReceipt(rs[ScanPosition(b, i)]) == AloneAnswer(b, i) <==>
      ReceiptOf(b.results[i].events).GasUsed? || (Regular(b, i) && (Ordinal(b, i) == 0 || Uint64(DroppedGasBefore(b, i)) == 0))
  {
    hide Listed, Scan, ReceiptsUpTo, ReceiptOf, Persisted, RebuiltInBlock, RebuiltAlone, Regular, Ordinal, DroppedGasBefore, Uint64;
    ListEntry(b, |b.txs|, rs, i);
    ReconstructionsAgree(b, i);
    assert Reported(b, i);
  }

  /** Asking for the block and asking for one of its transactions, after any run of the index: for
      every listed transaction the entry in the list is the answer exactly under that condition. */
  method BothReceipts(indexer: KV.KVIndexer, chain: Chain, h: int64, hash: Hash, ghost hs: seq<int64>, ghost i: nat)
    returns (list: BlockReceipts, alone: ReceiptAnswer)
    requires indexer.Valid() && ValidChain(chain) && (forall x :: x in hs ==> x in chain) && DistinctListed(chain, Heights(hs))
    requires indexer.db == Run(chain, hs) && h in hs && h in chain && Listed(chain[h], i) && TxAt(chain[h], i).hash == hash
    ensures list.Listing? <==> AllReported(chain[h])
    ensures alone == AloneAnswer(chain[h], i)
    ensures list.Listing? ==> ScanPosition(chain[h], i) < |list.receipts|
    ensures list.Listing? ==>
      (TheReceipt(list.receipts[ScanPosition(chain[h], i)]) == alone <==>
        ReceiptOf(chain[h].results[i].events).GasUsed?
        || (Regular(chain[h], i) && (Ordinal(chain[h], i) == 0 || Uint64(DroppedGasBefore(chain[h], i)) == 0)))
  {
    hide Indexed, Run, DistinctListed, AloneAnswer, AllReported, ReceiptsUpTo, Listed, ReceiptOf, Regular, Ordinal, DroppedGasBefore, Uint64, TxAt, Scan;
    IndexedAfterRun(chain, hs, h);
    IndexedFits(indexer.db, chain, Heights(hs), chain[h]);
    list := BlockReceiptList(indexer, chain[h], chain, Heights(hs));
    alone := GetTransactionReceipt(indexer, chain, hash, Heights(hs), h, i);
    if list.Listing? { EntryIsAnswer(chain[h], list.receipts, i); }
  }

  // ---- A block on which they differ ------------------------------------------------------------------------

  function HashOf(n: byte): Hash { seq(32, i => n) }

  function Sent(n: byte, gas: uint64): RawTx { Decoded(Tx([MsgEthereumTx(EthTx(HashOf(n), gas))], None)) }

  /** One transaction executed, one dropped for want of block gas, one that ran out of it after the ante
      handler. */
  function MixedBlock(): Block {
    BlockData(5, [Sent(1, 21000), Sent(2, 30000), Sent(3, 40000)],
      [ExecTxResult(0, [Event(EVENT_ETHEREUM_TX, [], None), Event(EVENT_TX_RECEIPT, [], Some(21000))]),
       ExecTxResult(11, []),
       ExecTxResult(11, [Event(EVENT_ETHEREUM_TX, [], None)])])
  }

  lemma MixedBlockListed()
    ensures var b := MixedBlock();
      Listed(b, 0) && !Listed(b, 1) && SingleEthAt(b, 1) && Listed(b, 2) && Numbered(b, 0) && Fits(b)
      && ReceiptOf(b.results[1].events) == NoReceipt && ReceiptOf(b.results[2].events) == NoReceipt
  {
    var b := MixedBlock();
    assert b.results[0].events[0].kind == EVENT_ETHEREUM_TX;
    assert b.results[2].events[0].kind == EVENT_ETHEREUM_TX;
    assert b.results[2].events[1..] == [];
  }

  /** The last transaction left no receipt. Rebuilt in the list its cumulative gas is 61000, rebuilt alone
      it is 91000. */
  lemma ReconstructionsDiffer()
    ensures var b := MixedBlock();
      Fits(b) && Listed(b, 2) && RebuiltInBlock(b, 2) != RebuiltAlone(b, 2) && Uint64(DroppedGasBefore(b, 2)) == 30000
  {
    var b := MixedBlock();
    MixedBlockListed();
    hide Listed, Numbered, ReceiptOf, RebuiltInBlock, RebuiltAlone;
    assert Ordinal(b, 1) == 1 && Ordinal(b, 2) >= 1;
    assert DroppedGasBefore(b, 0) == 0 && DroppedGasBefore(b, 1) == 0;
    assert TxAt(b, 1).gas == 30000 && GasOf(b, 1) == 30000;
    assert DroppedGasBefore(b, 2) == 30000;
    ReconstructionsAgree(b, 2);
  }

  // ---- A block on which the index changes the answer by index ---------------------------------------------

  /** The first transaction carries an index that does not parse, so only the second is stored. */
  function IrregularBlock(): Block {
    BlockData(5, [Sent(1, 21000), Sent(2, 21000)],
      [ExecTxResult(0, [Event(EVENT_ETHEREUM_TX, [Attribute(KEY_TX_INDEX, "x")], None)]),
       ExecTxResult(0, [Event(EVENT_ETHEREUM_TX, [], None), Event(EVENT_TX_RECEIPT, [], Some(21000))])])
  }

  lemma IrregularBlockIs()
    ensures var b := IrregularBlock();
      && Fits(b) && Listed(b, 0) && !Numbered(b, 0) && Listed(b, 1) && Persisted(b, 1)
      && TxAt(b, 0).hash != TxAt(b, 1).hash
  {
    var b := IrregularBlock();
    assert b.results[0].events[0].attributes[0].key == IndexKey(EVENT_ETHEREUM_TX);
    assert !Decimal.IsDigit("x"[0]);
    assert b.results[1].events[0].kind == EVENT_ETHEREUM_TX;
    assert TxAt(b, 0).hash[0] == 1 && TxAt(b, 1).hash[0] == 2;
  }

  lemma IrregularScan()
    ensures var b := IrregularBlock(); DistinctScan(b) && Ordinal(b, 1) == 0 && !Regular(b, 1)
  {
    var b := IrregularBlock();
    IrregularBlockIs();
    hide Listed, Numbered, TxAt, Persisted;
    assert Scan(b, 0) == [] && Scan(b, 1) == [TxAt(b, 0)] && Scan(b, 2) == [TxAt(b, 0), TxAt(b, 1)];
    assert Ordinal(b, 0) == 0;
  }

  /** Index 0 of that block is answered with its first transaction by the scan, and not through the index. */
  lemma IrregularAnswersDiffer()
    ensures var b := IrregularBlock(); var c: Chain := map[5 := b];
      ValidChain(c) && IndexedAnswer(Run(c, [5]), b, 0) != ScanAnswer(b, 0)
  {
    var b := IrregularBlock();
    var c: Chain := map[5 := b];
    IrregularBlockIs();
    IrregularScan();
    assert b.height == 5 && |b.txs| == 2;
    hide IrregularBlock, Listed, Numbered, Persisted, Run, IndexedAnswer, ScanAnswer, DistinctScan, Regular, Ordinal;
    forall h, i, h', i' | At(c, Heights([5]), h, i) && At(c, Heights([5]), h', i') ensures h == h' && i == i' {
      OnlySecond(b, i);
      OnlySecond(b, i');
    }
    assert !Faithful(b, 0) by { assert Persisted(b, 1) && Ordinal(b, 1) == Int32(0); }
    IndexedAnswerIsScanAnswer(c, [5], 5, 0);
  }

  lemma OnlySecond(b: Block, i: nat)
    requires |b.txs| == 2 && !Numbered(b, 0) && Persisted(b, i)
    ensures i == 1
  {
    hide Numbered;
  }
}
