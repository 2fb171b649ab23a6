/** The key-value indexer (indexer/kv_indexer.go): the loops and updates, against what
    `IndexRun` says the index should hold. */
module KVIndexer {
  import opened GoInt
  import opened Options
  import opened CosmosTx
  import opened TxEvents
  import opened ByteOrder
  import opened TxResultCodec
  import V = Varint
  import opened BlockIndex
  import opened IndexRun

  /** The first key of db.ReverseIterator(start, end). */
  method GreatestKey(db: Store, start: bytes, end: bytes) returns (k: Option<bytes>)
    ensures k.None? ==> forall x :: x in db ==> Less(x, start) || !Less(x, end)
    ensures k.Some? ==> k.value in db && !Less(k.value, start) && Less(k.value, end)
    ensures k.Some? ==> forall x :: x in db && !Less(x, start) && Less(x, end) ==> !Less(k.value, x)
  {
    hide Less;
    k := None;
    var rest := db.Keys;
    while rest != {}
      invariant rest <= db.Keys
      invariant k.None? ==> forall x :: x in db && x !in rest ==> Less(x, start) || !Less(x, end)
      invariant k.Some? ==> k.value in db && !Less(k.value, start) && Less(k.value, end)
      invariant k.Some? ==> forall x :: x in db && x !in rest && !Less(x, start) && Less(x, end) ==> !Less(k.value, x)
      decreases rest
    {
      var x :| x in rest;
      rest := rest - {x};
      if !Less(x, start) && Less(x, end) && (k.None? || Less(k.value, x)) {
        ghost var k0 := k;
        k := Some(x);
        forall y | y in db && y !in rest && !Less(y, start) && Less(y, end) ensures !Less(x, y) {
          NotAbove(k0, x, y);
        }
      }
    }
  }

  lemma NotAbove(k: Option<bytes>, x: bytes, y: bytes)
    requires k.Some? ==> Less(k.value, x)
    requires y == x || (k.Some? && !Less(k.value, y))
    ensures !Less(x, y)
  {
    Irreflexive(x);
    if y != x && Less(x, y) { Transitive(k.value, x, y); }
  }

  /** The first key of db.Iterator(start, end). */
  method LeastKey(db: Store, start: bytes, end: bytes) returns (k: Option<bytes>)
    ensures k.None? ==> forall x :: x in db ==> Less(x, start) || !Less(x, end)
    ensures k.Some? ==> k.value in db && !Less(k.value, start) && Less(k.value, end)
    ensures k.Some? ==> forall x :: x in db && !Less(x, start) && Less(x, end) ==> !Less(x, k.value)
  {
    hide Less;
    k := None;
    var rest := db.Keys;
    while rest != {}
      invariant rest <= db.Keys
      invariant k.None? ==> forall x :: x in db && x !in rest ==> Less(x, start) || !Less(x, end)
      invariant k.Some? ==> k.value in db && !Less(k.value, start) && Less(k.value, end)
      invariant k.Some? ==> forall x :: x in db && x !in rest && !Less(x, start) && Less(x, end) ==> !Less(x, k.value)
      decreases rest
    {
      var x :| x in rest;
      rest := rest - {x};
      if !Less(x, start) && Less(x, end) && (k.None? || Less(x, k.value)) {
        ghost var k0 := k;
        k := Some(x);
        forall y | y in db && y !in rest && !Less(y, start) && Less(y, end) ensures !Less(y, x) {
          NotBelow(k0, x, y);
        }
      }
    }
  }

  lemma NotBelow(k: Option<bytes>, x: bytes, y: bytes)
    requires k.Some? ==> Less(x, k.value)
    requires y == x || (k.Some? && !Less(y, k.value))
    ensures !Less(y, x)
  {
    Irreflexive(x);
    if y != x && Less(y, x) { Transitive(y, x, k.value); }
  }

  /** parseBlockNumberFromKey; None for the error return. */
  method ParseBlockNumberFromKey(key: bytes) returns (h: Option<int64>)
    ensures h == if |key| == TX_INDEX_KEY_LENGTH then Some(BlockNumberOfKey(key)) else None
  {
    if |key| != TX_INDEX_KEY_LENGTH { return None; }
    return Some(Int64(FromBigEndian(key[1..9])));
  }

  /** LoadLastBlock: on the index of any processed blocks, the greatest height with an indexed
      transaction, or -1. */
  method LoadLastBlock(db: Store) returns (h: Option<int64>)
    ensures forall c: Chain, p: set<int64> :: ValidChain(c) && IndexKeysExact(db, c, p) ==> h.Some? && IsLastIndexed(c, p, h.value)
  {
    hide Less, IndexKeysExact, HasIndexed, BlockNumberOfKey, ValidChain;
    var k := GreatestKey(db, [KEY_PREFIX_TX_INDEX], [KEY_PREFIX_TX_INDEX + 1]);
    forall x: bytes { RangeIsPrefix(x); }
    if k.None? {
      h := Some(-1);
    } else {
      h := ParseBlockNumberFromKey(k.value);
    }
    forall c: Chain, p: set<int64> | ValidChain(c) && IndexKeysExact(db, c, p)
      ensures h.Some? && IsLastIndexed(c, p, h.value)
    {
      if k.Some? { var _, _ := HolderOf(db, c, p, k.value); }
      forall x: int64 | HasIndexed(c, p, x) ensures k.Some? && h.Some? && x <= h.value {
        var kx := KeyOfHeight(db, c, p, x);
        KeysFollowHeights(db, c, p, k.value, kx);
      }
    }
  }

  /** LoadFirstBlock: likewise the least. */
  method LoadFirstBlock(db: Store) returns (h: Option<int64>)
    ensures forall c: Chain, p: set<int64> :: ValidChain(c) && IndexKeysExact(db, c, p) ==> h.Some? && IsFirstIndexed(c, p, h.value)
  {
    hide Less, IndexKeysExact, HasIndexed, BlockNumberOfKey, ValidChain;
    var k := LeastKey(db, [KEY_PREFIX_TX_INDEX], [KEY_PREFIX_TX_INDEX + 1]);
    forall x: bytes { RangeIsPrefix(x); }
    if k.None? {
      h := Some(-1);
    } else {
      h := ParseBlockNumberFromKey(k.value);
    }
    forall c: Chain, p: set<int64> | ValidChain(c) && IndexKeysExact(db, c, p)
      ensures h.Some? && IsFirstIndexed(c, p, h.value)
    {
      if k.Some? { var _, _ := HolderOf(db, c, p, k.value); }
      forall x: int64 | HasIndexed(c, p, x) ensures k.Some? && h.Some? && h.value <= x {
        var kx := KeyOfHeight(db, c, p, x);
        KeysFollowHeights(db, c, p, kx, k.value);
      }
    }
  }

  class KVIndexer {
    var db: Store
    var ready: bool
    var lastRequestIndexedBlock: int64

    /** Stored values are byte slices, so their lengths fit in an `int`. */
    ghost predicate Valid()
      reads this
    {
      forall k :: k in db ==> |db[k]| < TWO_63
    }

    constructor (db: Store)
      requires forall k :: k in db ==> |db[k]| < TWO_63
      ensures Valid() && this.db == db && !ready && lastRequestIndexedBlock == -1
    {
      this.db := db;
      ready := false;
      lastRequestIndexedBlock := -1;
    }

    /** The body of IndexBlock's loop: transaction `i`, whose ordinal would be `ethTxIndex`. */
    method IndexTx(block: Block, i: nat, ethTxIndex: int32, batch: Store) returns (batch': Store, next: int32)
      requires i < |block.txs| && ethTxIndex == Int32(Ordinal(block, i)) && batch == Batch(block, i)
      ensures batch' == Batch(block, i + 1)
      ensures next == Int32(Ordinal(block, i + 1))
    {
      hide Marshaled, HasKind, BadIndex, EthereumLane, HasVmError;
      batch', next := batch, ethTxIndex;
      var result := block.results[i];
      var dropped := TxWasDroppedPreAnteHandleDueToBlockGasExcess(result);
      if dropped { return; }
      if block.txs[i].Undecodable? { return; }
      var tx := block.txs[i].tx;
      var isEth := IsEthereumTx(tx);
      if !isEth { return; }
      var parsed := ParseTxResult(result, true);
      if parsed.ParseError? { return; }
      LaneHasMessage(tx);
      var ethMsg := tx.msgs[0];
      var failed, noPersist := false, false;
      if result.code != 0 {
        failed := true;
      } else if parsed.p.None? {
        noPersist := true;
      } else {
        failed := parsed.p.value.failed;
      }
      if !noPersist {
        batch' := SaveTxResult(batch', ethMsg.tx.hash, TxRecord(block.height, Uint32(i), ethTxIndex, failed));
      }
      NextOrdinal(Ordinal(block, i));
      next := Int32(ethTxIndex + 1);
    }

    /** IndexBlock: writes the block's batch, and nothing else; if the batch cannot be written, nothing at
        all changes. */
    method IndexBlock(block: Block, writable: bool) returns (ok: bool)
      requires Valid()
      modifies this`db, this`lastRequestIndexedBlock
      ensures Valid() && ok == writable
      ensures db == if ok then IndexedStore(old(db), block) else old(db)
      ensures lastRequestIndexedBlock == if ok && old(lastRequestIndexedBlock) < block.height then block.height else old(lastRequestIndexedBlock)
    {
      var batch: Store := map[];
      var ethTxIndex: int32 := 0;
      for i := 0 to |block.txs|
        invariant batch == Batch(block, i)
        invariant ethTxIndex == Int32(Ordinal(block, i))
        invariant unchanged(this)
      {
        batch, ethTxIndex := IndexTx(block, i, ethTxIndex, batch);
      }
      if !writable { return false; }
      BatchValuesShort(block, |block.txs|);
      db := db + batch;
      if lastRequestIndexedBlock < block.height {
        lastRequestIndexedBlock := block.height;
      }
      return true;
    }

    method Ready()
      modifies this`ready
      ensures ready
    {
      ready := true;
    }

    method GetByHash(hash: Hash) returns (r: Lookup)
      requires Valid()
      ensures r == GetByTxHash(db, hash)
    {
      var k := TxHashKey(hash);
      if k !in db { return NotFound; }
      var bz := db[k];
      if |bz| == 0 { return NotFound; }
      var txKey := new TxResult();
      var err := txKey.Unmarshal(bz);
      if err != NoError { return Corrupt(err); }
      return Found(txKey.Value());
    }

    method GetByPosition(blockNumber: int64, txIndex: int32) returns (r: Lookup)
      requires Valid()
      ensures r == GetByBlockAndIndex(db, blockNumber, txIndex)
    {
      var k := TxIndexKey(blockNumber, txIndex);
      if k !in db { return NotFound; }
      var bz := db[k];
      if |bz| == 0 { return NotFound; }
      r := GetByHash(BytesToHash(bz));
    }

    /** The last block handed to IndexBlock, or the last one in the store if none was yet. */
    method GetLastRequestIndexedBlock() returns (h: Option<int64>)
      ensures lastRequestIndexedBlock != -1 ==> h == Some(lastRequestIndexedBlock)
      ensures lastRequestIndexedBlock == -1 ==>
              forall c: Chain, p: set<int64> :: ValidChain(c) && IndexKeysExact(db, c, p) ==> h.Some? && IsLastIndexed(c, p, h.value)
    {
      if lastRequestIndexedBlock == -1 {
        h := LoadLastBlock(db);
        return;
      }
      return Some(lastRequestIndexedBlock);
    }
  }

  lemma LaneHasMessage(tx: Tx)
    requires EthereumLane(tx)
    ensures |tx.msgs| == 1 && tx.msgs[0].MsgEthereumTx?
  {
  }

  lemma NextOrdinal(n: nat)
    ensures Int32(Int32(n) + 1) == Int32(n + 1)
  {
  }

  /** saveTxResult: the record under the hash, then the hash under the position. */
  method SaveTxResult(batch: Store, txHash: Hash, txResult: TxRecord) returns (batch': Store)
    ensures batch' == batch[TxHashKey(txHash) := Marshaled(txResult)][TxIndexKey(txResult.height, txResult.ethTxIndex) := txHash]
  {
    var m := new TxResult();
    m.height, m.txIndex, m.ethTxIndex, m.failed := txResult.height, txResult.txIndex, txResult.ethTxIndex, txResult.failed;
    var bz := m.Marshal();
    batch' := batch[TxHashKey(txHash) := bz[..]];
    batch' := batch'[TxIndexKey(txResult.height, txResult.ethTxIndex) := txHash];
  }

  lemma MarshaledShort(r: TxRecord)
    ensures |Marshaled(r)| <= 35
  {
    hide V.Encode;
    V.SizeIsLength(Uint64(r.height));
    V.SizeIsLength(Uint64(r.txIndex));
    V.SizeIsLength(Uint64(r.ethTxIndex));
    V.SizeIsLength(1);
  }

  lemma {:induction false} BatchValuesShort(b: Block, n: nat)
    requires n <= |b.txs|
    ensures forall k :: k in Batch(b, n) ==> |Batch(b, n)[k]| < TWO_63
  {
    hide Marshaled, Persisted, HashKeyAt, IndexKeyAt;
    if n > 0 {
      BatchValuesShort(b, n - 1);
      MarshaledShort(RecordAt(b, n - 1));
    }
  }
}
