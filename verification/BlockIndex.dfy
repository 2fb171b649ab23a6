/** What the transaction index should hold: positions, keys and records of the Ethereum
    transactions of a block, and of a run of blocks (indexer/kv_indexer.go). */
module BlockIndex {
  import opened GoInt
  import opened CosmosTx
  import opened TxEvents
  import opened ByteOrder
  import opened TxResultCodec

  type Store = map<bytes, bytes>

  /** A raw transaction, as the decoder sees it. */
  datatype RawTx = Undecodable | Decoded(tx: Tx)

  datatype BlockData = BlockData(height: int64, txs: seq<RawTx>, results: seq<ExecTxResult>)

  type Block = b: BlockData | |b.txs| == |b.results| witness BlockData(1, [], [])

  // ---- Positions ------------------------------------------------------------------------------

  /** The transactions that are given an ordinal. */
  predicate Numbered(b: Block, i: nat)
    ensures Numbered(b, i) ==> i < |b.txs|
  {
    && i < |b.txs|
    && !Dropped(b.results[i])
    && b.txs[i].Decoded?
    && EthereumLane(b.txs[i].tx)
    && !BadIndex(b.results[i].events)
  }

  /** The transactions that are written to the index. */
  predicate Persisted(b: Block, i: nat) {
    Numbered(b, i) && ReachedExecution(b.results[i].events)
  }

  function EthTxAt(b: Block, i: nat): EthTx
    requires Numbered(b, i)
  {
    b.txs[i].tx.msgs[0].tx
  }

  function HashAt(b: Block, i: nat): Hash
    requires Numbered(b, i)
  {
    EthTxAt(b, i).hash
  }

  /** How many transactions before `i` have an ordinal. */
  function Ordinal(b: Block, i: nat): (n: nat)
    requires i <= |b.txs|
    ensures n <= i
  {
    if i == 0 then 0 else Ordinal(b, i - 1) + if Numbered(b, i - 1) then 1 else 0
  }

  lemma {:induction false} OrdinalIncreases(b: Block, i: nat, j: nat)
    requires i < j <= |b.txs|
    ensures Ordinal(b, i) <= Ordinal(b, j)
    ensures Numbered(b, i) ==> Ordinal(b, i) < Ordinal(b, j)
    decreases j - i
  {
    if i + 1 < j { OrdinalIncreases(b, i, j - 1); }
  }

  /** Ordinals and indexes are kept in 32 bits. */
  function RecordAt(b: Block, i: nat): TxRecord
    requires i < |b.txs|
  {
    TxRecord(b.height, Uint32(i), Int32(Ordinal(b, i)), Failed(b.results[i]))
  }

  // ---- Keys -------------------------------------------------------------------------------------

  const KEY_PREFIX_TX_HASH: byte := 1
  const KEY_PREFIX_TX_INDEX: byte := 2

  function TxHashKey(hash: Hash): bytes {
    [KEY_PREFIX_TX_HASH] + hash
  }

  function TxIndexKey(blockNumber: int64, txIndex: int32): (k: bytes)
    ensures |k| == 17
  {
    [KEY_PREFIX_TX_INDEX] + (BigEndian64(Uint64(blockNumber)) + BigEndian64(Uint64(txIndex)))
  }

  function HashKeyAt(b: Block, i: nat): bytes
    requires Numbered(b, i)
  {
    TxHashKey(HashAt(b, i))
  }

  function IndexKeyAt(b: Block, i: nat): bytes
    requires i < |b.txs|
  {
    TxIndexKey(b.height, Int32(Ordinal(b, i)))
  }

  predicate IsIndexKey(k: bytes) {
    |k| > 0 && k[0] == KEY_PREFIX_TX_INDEX
  }

  /** Byte order of index keys is the order of the 64-bit patterns, block first; on the block
      numbers and ordinals that occur this is numeric order. */
  lemma IndexKeyOrder(h1: int64, o1: int32, h2: int64, o2: int32)
    ensures Less(TxIndexKey(h1, o1), TxIndexKey(h2, o2)) <==>
            Uint64(h1) < Uint64(h2) || (Uint64(h1) == Uint64(h2) && Uint64(o1) < Uint64(o2))
    ensures h1 >= 0 && h2 >= 0 && o1 >= 0 && o2 >= 0 ==>
            (Less(TxIndexKey(h1, o1), TxIndexKey(h2, o2)) <==> h1 < h2 || (h1 == h2 && o1 < o2))
  {
    hide Less, BigEndian64, Uint64;
    var a1, b1, a2, b2 := BigEndian64(Uint64(h1)), BigEndian64(Uint64(o1)), BigEndian64(Uint64(h2)), BigEndian64(Uint64(o2));
    BigEndian64Order(Uint64(h1), Uint64(h2));
    BigEndian64Order(Uint64(o1), Uint64(o2));
    LessConcat([KEY_PREFIX_TX_INDEX], [KEY_PREFIX_TX_INDEX], a1 + b1, a2 + b2);
    LessConcat(a1, a2, b1, b2);
    Irreflexive([KEY_PREFIX_TX_INDEX]);
    Pattern(h1);
    Pattern(h2);
    Pattern(o1);
    Pattern(o2);
  }

  lemma IndexKeyParts(h: int64, o: int32)
    ensures TxIndexKey(h, o)[1..9] == BigEndian64(Uint64(h))
    ensures TxIndexKey(h, o)[9..] == BigEndian64(Uint64(o))
  {
    hide BigEndian64, Uint64;
  }

  lemma IndexKeyInjective(h1: int64, o1: int32, h2: int64, o2: int32)
    requires TxIndexKey(h1, o1) == TxIndexKey(h2, o2)
    ensures h1 == h2 && o1 == o2
  {
    hide BigEndian64, TxIndexKey, Uint64;
    IndexKeyParts(h1, o1);
    IndexKeyParts(h2, o2);
    BigEndian64Order(Uint64(h1), Uint64(h2));
    BigEndian64Order(Uint64(o1), Uint64(o2));
    Pattern(h1);
    Pattern(h2);
    Pattern(o1);
    Pattern(o2);
  }

  // ---- One block ----------------------------------------------------------------------------------

  /** What indexing the first `n` transactions of a block writes. */
  function Batch(b: Block, n: nat): Store
    requires n <= |b.txs|
  {
    if n == 0 then map[]
    else if Persisted(b, n - 1) then
      Batch(b, n - 1)[HashKeyAt(b, n - 1) := Marshaled(RecordAt(b, n - 1))][IndexKeyAt(b, n - 1) := HashAt(b, n - 1)]
    else Batch(b, n - 1)
  }

  function IndexedStore(db: Store, b: Block): Store {
    db + Batch(b, |b.txs|)
  }

  /** A block whose ordinals fit in 31 bits. */
  predicate Fits(b: Block) {
    |b.txs| <= 0x8000_0000
  }

  lemma SmallOrdinal(b: Block, i: nat)
    requires Fits(b) && i < |b.txs|
    ensures Int32(Ordinal(b, i)) == Ordinal(b, i)
  {
  }

  lemma IndexKeysApart(b: Block, i: nat, j: nat)
    requires Fits(b) && i < |b.txs| && j < |b.txs| && i != j
    requires Numbered(b, i) && Numbered(b, j)
    ensures IndexKeyAt(b, i) != IndexKeyAt(b, j)
  {
    SmallOrdinal(b, i);
    SmallOrdinal(b, j);
    if i < j { OrdinalIncreases(b, i, j); } else { OrdinalIncreases(b, j, i); }
    if IndexKeyAt(b, i) == IndexKeyAt(b, j) {
      IndexKeyInjective(b.height, Int32(Ordinal(b, i)), b.height, Int32(Ordinal(b, j)));
    }
  }

  lemma KeyKindsApart(b: Block, i: nat, c: Block, j: nat)
    requires Numbered(b, i) && j < |c.txs|
    ensures HashKeyAt(b, i)[0] == 1 && IndexKeyAt(c, j)[0] == 2
    ensures HashKeyAt(b, i) != IndexKeyAt(c, j)
    ensures IsIndexKey(IndexKeyAt(c, j)) && !IsIndexKey(HashKeyAt(b, i))
  {
  }

  /** Every key of a batch belongs to a persisted transaction. */
  lemma {:induction false} BatchKeys(b: Block, n: nat, k: bytes) returns (i: nat)
    requires n <= |b.txs| && k in Batch(b, n)
    ensures i < n && Persisted(b, i)
    ensures k == HashKeyAt(b, i) || k == IndexKeyAt(b, i)
  {
    hide Numbered, HashKeyAt, IndexKeyAt, Marshaled, RecordAt;
    if Persisted(b, n - 1) && (k == HashKeyAt(b, n - 1) || k == IndexKeyAt(b, n - 1)) {
      i := n - 1;
    } else {
      i := BatchKeys(b, n - 1, k);
    }
  }

  /** Every persisted transaction has its index key, holding its hash. */
  lemma {:induction false} BatchIndexKey(b: Block, n: nat, i: nat)
    requires Fits(b) && i < n <= |b.txs| && Persisted(b, i)
    ensures IndexKeyAt(b, i) in Batch(b, n) && Batch(b, n)[IndexKeyAt(b, i)] == HashAt(b, i)
  {
    hide Numbered, HashKeyAt, IndexKeyAt, Marshaled, RecordAt;
    if i < n - 1 {
      BatchIndexKey(b, n - 1, i);
      if Persisted(b, n - 1) {
        IndexKeysApart(b, i, n - 1);
        KeyKindsApart(b, n - 1, b, i);
      }
    }
  }

  /** Every persisted transaction has its hash key, holding the record of the last transaction
      with that hash. */
  lemma {:induction false} BatchHashKey(b: Block, n: nat, i: nat) returns (j: nat)
    requires i < n <= |b.txs| && Persisted(b, i)
    ensures i <= j < n && Persisted(b, j) && HashAt(b, j) == HashAt(b, i)
    ensures HashKeyAt(b, i) in Batch(b, n) && Batch(b, n)[HashKeyAt(b, i)] == Marshaled(RecordAt(b, j))
  {
    hide Numbered, HashKeyAt, IndexKeyAt, Marshaled, RecordAt;
    if Persisted(b, n - 1) {
      KeyKindsApart(b, n - 1, b, n - 1);
      KeyKindsApart(b, i, b, n - 1);
      HashKeyInjective(b, i, b, n - 1);
      if HashKeyAt(b, i) == HashKeyAt(b, n - 1) { return n - 1; }
    }
    j := BatchHashKey(b, n - 1, i);
  }

  lemma HashKeyInjective(b: Block, i: nat, c: Block, j: nat)
    requires Numbered(b, i) && Numbered(c, j)
    ensures HashKeyAt(b, i) == HashKeyAt(c, j) <==> HashAt(b, i) == HashAt(c, j)
  {
    assert HashAt(b, i) == HashKeyAt(b, i)[1..] && HashAt(c, j) == HashKeyAt(c, j)[1..];
  }
}
