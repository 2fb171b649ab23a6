/** What the index holds after any run of block indexing, and what its lookups answer
    (indexer/kv_indexer.go). */
module IndexRun {
  import opened GoInt
  import opened CosmosTx
  import opened TxEvents
  import opened ByteOrder
  import opened TxResultCodec
  import opened BlockIndex

  /** The chain: a block for every height that can be loaded. */
  type Chain = map<int64, Block>

  predicate ValidChain(c: Chain) {
    forall h :: h in c ==> h >= 1 && c[h].height == h && Fits(c[h])
  }

  /** The store after indexing the blocks at the given heights, in that order, from empty. */
  function Run(c: Chain, hs: seq<int64>): Store
    requires forall h :: h in hs ==> h in c
  {
    if hs == [] then map[] else IndexedStore(Run(c, hs[..|hs| - 1]), c[hs[|hs| - 1]])
  }

  /** Transaction `i` of block `h`, among the blocks processed, is in the index. */
  predicate At(c: Chain, p: set<int64>, h: int64, i: nat) {
    h in p && h in c && Persisted(c[h], i)
  }

  /** No hash stands at two positions. */
  ghost predicate DistinctHashes(c: Chain, p: set<int64>) {
    forall h, i, h', i' :: At(c, p, h, i) && At(c, p, h', i') && HashAt(c[h], i) == HashAt(c[h'], i') ==> h == h' && i == i'
  }

  // ---- The invariants of a run ---------------------------------------------------------------

  /** The index keys are those of the processed transactions, and hold their hashes. */
  ghost predicate IndexKeysExact(db: Store, c: Chain, p: set<int64>) {
    && (forall h, i :: At(c, p, h, i) ==> IndexKeyAt(c[h], i) in db && db[IndexKeyAt(c[h], i)] == HashAt(c[h], i))
    && (forall k :: k in db && IsIndexKey(k) ==> exists h, i :: At(c, p, h, i) && k == IndexKeyAt(c[h], i))
  }

  /** The other keys are the hash keys of the processed transactions. */
  ghost predicate HashKeysExact(db: Store, c: Chain, p: set<int64>) {
    && (forall h, i :: At(c, p, h, i) ==> HashKeyAt(c[h], i) in db)
    && (forall k :: k in db && !IsIndexKey(k) ==> exists h, i :: At(c, p, h, i) && k == HashKeyAt(c[h], i))
  }

  /** Every processed transaction's own record is stored under its hash. */
  ghost predicate RecordsExact(db: Store, c: Chain, p: set<int64>)
    requires HashKeysExact(db, c, p)
  {
    forall h, i :: At(c, p, h, i) ==> db[HashKeyAt(c[h], i)] == Marshaled(RecordAt(c[h], i))
  }

  lemma BlockKeysApart(c: Chain, p: set<int64>, h: int64, i: nat, h': int64, i': nat)
    requires ValidChain(c) && At(c, p, h, i) && At(c, p, h', i')
    ensures IndexKeyAt(c[h], i) == IndexKeyAt(c[h'], i') ==> h == h' && i == i'
  {
    hide TxIndexKey;
    if IndexKeyAt(c[h], i) == IndexKeyAt(c[h'], i') {
      IndexKeyInjective(h, Int32(Ordinal(c[h], i)), h', Int32(Ordinal(c[h'], i')));
      if i != i' { IndexKeysApart(c[h], i, i'); }
    }
  }

  /** A key of a block's batch belongs to one of its persisted transactions. */
  lemma BatchKeyAt(c: Chain, p: set<int64>, h: int64, k: bytes) returns (i: nat)
    requires h in c && h in p && k in Batch(c[h], |c[h].txs|)
    ensures At(c, p, h, i)
    ensures if IsIndexKey(k) then k == IndexKeyAt(c[h], i) else k == HashKeyAt(c[h], i)
  {
    i := BatchKeys(c[h], |c[h].txs|, k);
    KeyKindsApart(c[h], i, c[h], i);
  }

  lemma IndexKeysStep(db: Store, c: Chain, p: set<int64>, h0: int64)
    requires ValidChain(c) && h0 in c && IndexKeysExact(db, c, p)
    ensures IndexKeysExact(IndexedStore(db, c[h0]), c, p + {h0})
  {
    hide Numbered, ReachedExecution, IndexKeyAt, HashAt, Batch, HashKeyAt, IsIndexKey;
    var b, p' := c[h0], p + {h0};
    var batch := Batch(b, |b.txs|);
    var db' := IndexedStore(db, b);
    forall h, i | At(c, p', h, i)
      ensures IndexKeyAt(c[h], i) in db' && db'[IndexKeyAt(c[h], i)] == HashAt(c[h], i)
    {
      var k := IndexKeyAt(c[h], i);
      if k in batch {
        KeyKinds(c, p', h, i);
        var j := BatchKeyAt(c, p', h0, k);
        BlockKeysApart(c, p', h, i, h0, j);
        BatchIndexKeyAt(c, p', h0, j);
      } else if h == h0 {
        BatchIndexKeyAt(c, p', h0, i);
      } else {
        assert At(c, p, h, i);
      }
    }
    forall k | k in db' && IsIndexKey(k)
      ensures exists h, i :: At(c, p', h, i) && k == IndexKeyAt(c[h], i)
    {
      if k in batch {
        var j := BatchKeyAt(c, p', h0, k);
      } else {
        var h, i :| At(c, p, h, i) && k == IndexKeyAt(c[h], i);
        assert At(c, p', h, i);
      }
    }
  }

  lemma KeyKinds(c: Chain, p: set<int64>, h: int64, i: nat)
    requires At(c, p, h, i)
    ensures IsIndexKey(IndexKeyAt(c[h], i)) && !IsIndexKey(HashKeyAt(c[h], i))
  {
    KeyKindsApart(c[h], i, c[h], i);
  }

  lemma BatchIndexKeyAt(c: Chain, p: set<int64>, h: int64, i: nat)
    requires ValidChain(c) && At(c, p, h, i)
    ensures IndexKeyAt(c[h], i) in Batch(c[h], |c[h].txs|)
    ensures Batch(c[h], |c[h].txs|)[IndexKeyAt(c[h], i)] == HashAt(c[h], i)
  {
    BatchIndexKey(c[h], |c[h].txs|, i);
  }

  lemma BatchHashKeyAt(c: Chain, p: set<int64>, h: int64, i: nat) returns (j: nat)
    requires At(c, p, h, i)
    ensures At(c, p, h, j) && HashAt(c[h], j) == HashAt(c[h], i)
    ensures HashKeyAt(c[h], i) in Batch(c[h], |c[h].txs|)
    ensures Batch(c[h], |c[h].txs|)[HashKeyAt(c[h], i)] == Marshaled(RecordAt(c[h], j))
  {
    hide Marshaled, RecordAt;
    j := BatchHashKey(c[h], |c[h].txs|, i);
  }

  lemma HashKeysStep(db: Store, c: Chain, p: set<int64>, h0: int64)
    requires h0 in c && HashKeysExact(db, c, p)
    ensures HashKeysExact(IndexedStore(db, c[h0]), c, p + {h0})
  {
    hide Numbered, ReachedExecution, IndexKeyAt, HashAt, Batch, HashKeyAt, IsIndexKey, Marshaled, RecordAt;
    var b, p' := c[h0], p + {h0};
    var batch := Batch(b, |b.txs|);
    var db' := IndexedStore(db, b);
    forall h, i | At(c, p', h, i)
      ensures HashKeyAt(c[h], i) in db'
    {
      if h == h0 {
        var j := BatchHashKeyAt(c, p', h0, i);
      } else {
        assert At(c, p, h, i);
      }
    }
    forall k | k in db' && !IsIndexKey(k)
      ensures exists h, i :: At(c, p', h, i) && k == HashKeyAt(c[h], i)
    {
      if k in batch {
        var j := BatchKeyAt(c, p', h0, k);
      } else {
        var h, i :| At(c, p, h, i) && k == HashKeyAt(c[h], i);
        assert At(c, p', h, i);
      }
    }
  }

  lemma RecordsStep(db: Store, c: Chain, p: set<int64>, h0: int64)
    requires h0 in c && HashKeysExact(db, c, p) && RecordsExact(db, c, p)
    requires DistinctHashes(c, p + {h0})
    requires HashKeysExact(IndexedStore(db, c[h0]), c, p + {h0})
    ensures RecordsExact(IndexedStore(db, c[h0]), c, p + {h0})
  {
    hide Numbered, ReachedExecution, IndexKeyAt, HashAt, Batch, HashKeyAt, IsIndexKey, Marshaled, RecordAt;
    var b, p' := c[h0], p + {h0};
    var batch := Batch(b, |b.txs|);
    var db' := IndexedStore(db, b);
    forall h, i | At(c, p', h, i)
      ensures db'[HashKeyAt(c[h], i)] == Marshaled(RecordAt(c[h], i))
    {
      var k := HashKeyAt(c[h], i);
      if k in batch {
        KeyKinds(c, p', h, i);
        var j := BatchKeyAt(c, p', h0, k);
        SameHash(c, p', h, i, h0, j);
        var j' := BatchHashKeyAt(c, p', h0, j);
        assert j' == j == i && h == h0;
      } else {
        if h == h0 { var j := BatchHashKeyAt(c, p', h0, i); }
        assert At(c, p, h, i);
      }
    }
  }

  lemma SameHash(c: Chain, p: set<int64>, h: int64, i: nat, h': int64, i': nat)
    requires At(c, p, h, i) && At(c, p, h', i')
    ensures HashKeyAt(c[h], i) == HashKeyAt(c[h'], i') <==> HashAt(c[h], i) == HashAt(c[h'], i')
  {
    HashKeyInjective(c[h], i, c[h'], i');
  }

  function Heights(hs: seq<int64>): set<int64> {
    set h | h in hs
  }

  lemma HeightsStep(hs: seq<int64>)
    requires hs != []
    ensures Heights(hs) == Heights(hs[..|hs| - 1]) + {hs[|hs| - 1]}
  {
    assert hs == hs[..|hs| - 1] + [hs[|hs| - 1]];
  }

  /** The keys of the index after any run. */
  lemma {:induction false} RunKeys(c: Chain, hs: seq<int64>)
    requires ValidChain(c) && forall h :: h in hs ==> h in c
    ensures IndexKeysExact(Run(c, hs), c, Heights(hs))
    ensures HashKeysExact(Run(c, hs), c, Heights(hs))
    decreases |hs|
  {
    hide IndexKeysExact, HashKeysExact, IndexedStore;
    if hs == [] {
      EmptyStore(c);
    } else {
      var hs' := hs[..|hs| - 1];
      RunKeys(c, hs');
      HeightsStep(hs);
      IndexKeysStep(Run(c, hs'), c, Heights(hs'), hs[|hs| - 1]);
      HashKeysStep(Run(c, hs'), c, Heights(hs'), hs[|hs| - 1]);
    }
  }

  lemma EmptyStore(c: Chain)
    ensures IndexKeysExact(map[], c, Heights([])) && HashKeysExact(map[], c, Heights([]))
  {
  }

  /** The records of the index after any run over blocks with distinct hashes. */
  lemma {:induction false} RunRecords(c: Chain, hs: seq<int64>)
    requires ValidChain(c) && forall h :: h in hs ==> h in c
    requires DistinctHashes(c, Heights(hs))
    ensures HashKeysExact(Run(c, hs), c, Heights(hs)) && RecordsExact(Run(c, hs), c, Heights(hs))
    decreases |hs|
  {
    RunKeys(c, hs);
    if hs != [] {
      var hs' := hs[..|hs| - 1];
      HeightsStep(hs);
      DistinctSubset(c, Heights(hs'), Heights(hs));
      RunRecords(c, hs');
      hide IndexKeysExact, HashKeysExact, RecordsExact, IndexedStore, DistinctHashes;
      RecordsStep(Run(c, hs'), c, Heights(hs'), hs[|hs| - 1]);
    }
  }

  lemma DistinctSubset(c: Chain, p: set<int64>, q: set<int64>)
    requires p <= q && DistinctHashes(c, q)
    ensures DistinctHashes(c, p)
  {
    hide Numbered, ReachedExecution, HashAt;
    forall h, i, h', i' | At(c, p, h, i) && At(c, p, h', i') && HashAt(c[h], i) == HashAt(c[h'], i')
      ensures h == h' && i == i'
    {
      assert At(c, q, h, i) && At(c, q, h', i');
    }
  }

  // ---- Lookups ------------------------------------------------------------------------------

  datatype Lookup = Found(rec: TxRecord) | NotFound | Corrupt(err: Error)

  /** common.BytesToHash: the last 32 bytes, or zeros in front. */
  function BytesToHash(b: bytes): Hash {
    if |b| > 32 then b[|b| - 32..] else seq(32 - |b|, i => 0) + b
  }

  /** The last 32 bytes, behind zeros if there are fewer. */
  lemma BytesToHashAt(b: bytes, i: nat)
    requires i < 32
    ensures BytesToHash(b)[31 - i] == if i < |b| then b[|b| - 1 - i] else 0
  {
  }

  function GetByTxHash(db: Store, hash: Hash): Lookup {
    var k := TxHashKey(hash);
    if k !in db || |db[k]| == 0 then NotFound
    else match ParseFrom(db[k], 0, ZERO)
         case Accepted(r) => Found(r)
         case Rejected(e) => Corrupt(e)
  }

  function GetByBlockAndIndex(db: Store, blockNumber: int64, txIndex: int32): Lookup {
    var k := TxIndexKey(blockNumber, txIndex);
    if k !in db || |db[k]| == 0 then NotFound
    else GetByTxHash(db, BytesToHash(db[k]))
  }

  lemma HashToHash(h: Hash)
    ensures BytesToHash(h) == h
  {
    assert seq(0, i => 0 as byte) + h == h;
  }

  lemma {:induction false} MarshaledNonEmpty(r: TxRecord)
    requires r.height != 0
    ensures |Marshaled(r)| > 0
  {
  }

  /** Whatever was indexed, an index key holds the hash of a transaction that is stored. */
  lemma IndexPointsToStoredHash(c: Chain, hs: seq<int64>, k: bytes)
    requires ValidChain(c) && forall h :: h in hs ==> h in c
    requires k in Run(c, hs) && IsIndexKey(k)
    ensures |Run(c, hs)[k]| == 32 && TxHashKey(Run(c, hs)[k]) in Run(c, hs)
  {
    hide Run, Numbered, ReachedExecution, IndexKeyAt, IsIndexKey, HashAt;
    RunKeys(c, hs);
    var h, i :| At(c, Heights(hs), h, i) && k == IndexKeyAt(c[h], i);
    assert HashKeyAt(c[h], i) in Run(c, hs);
  }

  /** Both lookups find an indexed transaction, and answer with its own record: the height and
      ordinal asked for, and whether it failed. */
  lemma LookupsAgree(c: Chain, hs: seq<int64>, h: int64, i: nat)
    requires ValidChain(c) && forall x :: x in hs ==> x in c
    requires DistinctHashes(c, Heights(hs))
    requires h in hs && Persisted(c[h], i)
    ensures GetByTxHash(Run(c, hs), HashAt(c[h], i)) == Found(RecordAt(c[h], i))
    ensures GetByBlockAndIndex(Run(c, hs), h, Int32(Ordinal(c[h], i))) == Found(RecordAt(c[h], i))
    ensures RecordAt(c[h], i).height == h && RecordAt(c[h], i).ethTxIndex == Ordinal(c[h], i)
    ensures RecordAt(c[h], i).failed <==> Failed(c[h].results[i])
  {
    RunKeys(c, hs);
    RunRecords(c, hs);
    hide Run;
    LookupsInStore(Run(c, hs), c, Heights(hs), h, i);
  }

  lemma LookupsInStore(db: Store, c: Chain, p: set<int64>, h: int64, i: nat)
    requires ValidChain(c) && At(c, p, h, i)
    requires IndexKeysExact(db, c, p) && HashKeysExact(db, c, p) && RecordsExact(db, c, p)
    ensures GetByTxHash(db, HashAt(c[h], i)) == Found(RecordAt(c[h], i))
    ensures GetByBlockAndIndex(db, h, Int32(Ordinal(c[h], i))) == Found(RecordAt(c[h], i))
    ensures RecordAt(c[h], i).ethTxIndex == Ordinal(c[h], i)
  {
    hide Numbered, ReachedExecution, Marshaled, ParseFrom, TxIndexKey, TxHashKey, BytesToHash;
    SmallOrdinal(c[h], i);
    RoundTrip(RecordAt(c[h], i));
    MarshaledNonEmpty(RecordAt(c[h], i));
    HashToHash(HashAt(c[h], i));
    assert IndexKeyAt(c[h], i) == TxIndexKey(h, Int32(Ordinal(c[h], i)));
    assert HashKeyAt(c[h], i) == TxHashKey(HashAt(c[h], i));
  }

  /** Nothing else is found: an answer of the lookup by block and index is the record of the
      transaction of that block with that ordinal, for any numbers asked. */
  lemma LookupSound(c: Chain, hs: seq<int64>, h: int64, o: int32) returns (i: nat)
    requires ValidChain(c) && forall x :: x in hs ==> x in c
    requires DistinctHashes(c, Heights(hs))
    requires GetByBlockAndIndex(Run(c, hs), h, o) != NotFound
    ensures h in hs && Persisted(c[h], i) && o == Ordinal(c[h], i)
    ensures GetByBlockAndIndex(Run(c, hs), h, o) == Found(RecordAt(c[h], i))
  {
    RunKeys(c, hs);
    RunRecords(c, hs);
    hide Run, Numbered, ReachedExecution, Marshaled, ParseFrom, TxIndexKey, TxHashKey, BytesToHash;
    i := KeyHolder(Run(c, hs), c, Heights(hs), h, o);
    LookupsInStore(Run(c, hs), c, Heights(hs), h, i);
  }

  lemma KeyHolder(db: Store, c: Chain, p: set<int64>, h: int64, o: int32) returns (i: nat)
    requires ValidChain(c) && IndexKeysExact(db, c, p)
    requires TxIndexKey(h, o) in db
    ensures At(c, p, h, i) && o == Int32(Ordinal(c[h], i)) == Ordinal(c[h], i)
  {
    assert IsIndexKey(TxIndexKey(h, o));
    hide Numbered, ReachedExecution, TxIndexKey, IsIndexKey;
    var h', i' :| At(c, p, h', i') && TxIndexKey(h, o) == IndexKeyAt(c[h'], i');
    IndexKeyInjective(h, o, h', Int32(Ordinal(c[h'], i')));
    SmallOrdinal(c[h'], i');
    i := i';
  }

  // ---- The store is determined by what was processed ---------------------------------------------

  lemma StoreSubset(db: Store, db': Store, c: Chain, p: set<int64>, k: bytes)
    requires IndexKeysExact(db, c, p) && HashKeysExact(db, c, p) && RecordsExact(db, c, p)
    requires IndexKeysExact(db', c, p) && HashKeysExact(db', c, p) && RecordsExact(db', c, p)
    requires k in db
    ensures k in db' && db'[k] == db[k]
  {
    hide Numbered, ReachedExecution, Marshaled, IndexKeyAt, HashKeyAt, HashAt, RecordAt, IsIndexKey;
    if IsIndexKey(k) {
      var h, i :| At(c, p, h, i) && k == IndexKeyAt(c[h], i);
    } else {
      var h, i :| At(c, p, h, i) && k == HashKeyAt(c[h], i);
    }
  }

  /** Two runs over the same blocks leave the same index, whatever the order and the number of
      times each block was indexed. */
  lemma RunsAgree(c: Chain, hs: seq<int64>, hs': seq<int64>)
    requires ValidChain(c) && (forall h :: h in hs ==> h in c) && (forall h :: h in hs' ==> h in c)
    requires Heights(hs) == Heights(hs') && DistinctHashes(c, Heights(hs))
    ensures Run(c, hs) == Run(c, hs')
  {
    hide Run, IndexKeysExact, HashKeysExact, RecordsExact, DistinctHashes, ValidChain;
    RunKeys(c, hs);
    RunRecords(c, hs);
    RunKeys(c, hs');
    RunRecords(c, hs');
    var db, db' := Run(c, hs), Run(c, hs');
    forall k | k in db ensures k in db' && db'[k] == db[k] { StoreSubset(db, db', c, Heights(hs), k); }
    forall k | k in db' ensures k in db && db[k] == db'[k] { StoreSubset(db', db, c, Heights(hs), k); }
  }

  /** Indexing a block again changes nothing. */
  lemma ReindexChangesNothing(c: Chain, hs: seq<int64>, h: int64)
    requires ValidChain(c) && forall x :: x in hs ==> x in c
    requires DistinctHashes(c, Heights(hs)) && h in hs
    ensures IndexedStore(Run(c, hs), c[h]) == Run(c, hs)
  {
    var again := hs + [h];
    assert again[..|again| - 1] == hs && again[|again| - 1] == h;
    HeightsStep(again);
    assert Heights(again) == Heights(hs);
    RunsAgree(c, hs, again);
  }

  // ---- First and last -------------------------------------------------------------------------

  /** The iterator range [prefix, prefix + 1) holds the index keys. */
  lemma RangeIsPrefix(k: bytes)
    ensures !Less(k, [KEY_PREFIX_TX_INDEX]) && Less(k, [KEY_PREFIX_TX_INDEX + 1]) <==> IsIndexKey(k)
  {
    hide Less;
    LessByte(k, KEY_PREFIX_TX_INDEX);
    LessByte(k, KEY_PREFIX_TX_INDEX + 1);
  }

  predicate HasIndexed(c: Chain, p: set<int64>, h: int64) {
    h in p && h in c && exists i :: 0 <= i < |c[h].txs| && Persisted(c[h], i)
  }

  /** `h` is the greatest processed height with an indexed transaction, or -1 if there is none. */
  ghost predicate IsLastIndexed(c: Chain, p: set<int64>, h: int64) {
    if h == -1 then forall x: int64 :: !HasIndexed(c, p, x)
    else HasIndexed(c, p, h) && forall x: int64 :: HasIndexed(c, p, x) ==> x <= h
  }

  ghost predicate IsFirstIndexed(c: Chain, p: set<int64>, h: int64) {
    if h == -1 then forall x: int64 :: !HasIndexed(c, p, x)
    else HasIndexed(c, p, h) && forall x: int64 :: HasIndexed(c, p, x) ==> h <= x
  }

  const TX_INDEX_KEY_LENGTH: nat := 1 + 8 + 8

  function BlockNumberOfKey(k: bytes): int64
    requires |k| == TX_INDEX_KEY_LENGTH
  {
    Int64(FromBigEndian(k[1..9]))
  }

  lemma BlockNumberOfIndexKey(h: int64, o: int32)
    ensures BlockNumberOfKey(TxIndexKey(h, o)) == h
  {
    IndexKeyParts(h, o);
    hide FromBigEndian, TxIndexKey, BigEndian64;
    BigEndian64Order(Uint64(h), Uint64(h));
  }

  /** An index key, and the processed transaction it stands for. */
  lemma HolderOf(db: Store, c: Chain, p: set<int64>, k: bytes) returns (h: int64, i: nat)
    requires ValidChain(c) && IndexKeysExact(db, c, p) && k in db && IsIndexKey(k)
    ensures At(c, p, h, i) && HasIndexed(c, p, h) && h >= 1
    ensures k == TxIndexKey(h, Ordinal(c[h], i)) && |k| == TX_INDEX_KEY_LENGTH && BlockNumberOfKey(k) == h
  {
    hide Numbered, ReachedExecution, TxIndexKey, IsIndexKey, BlockNumberOfKey;
    h, i :| At(c, p, h, i) && k == IndexKeyAt(c[h], i);
    SmallOrdinal(c[h], i);
    BlockNumberOfIndexKey(h, Int32(Ordinal(c[h], i)));
  }

  /** The byte order of two stored index keys follows the heights they hold. */
  lemma KeysFollowHeights(db: Store, c: Chain, p: set<int64>, k: bytes, k': bytes)
    requires ValidChain(c) && IndexKeysExact(db, c, p)
    requires k in db && IsIndexKey(k) && k' in db && IsIndexKey(k') && !Less(k, k')
    ensures |k| == TX_INDEX_KEY_LENGTH == |k'| && BlockNumberOfKey(k') <= BlockNumberOfKey(k)
  {
    hide IndexKeysExact, Numbered, ReachedExecution, TxIndexKey, IsIndexKey, Less;
    var h, i := HolderOf(db, c, p, k);
    var h', i' := HolderOf(db, c, p, k');
    IndexKeyOrder(h', Ordinal(c[h'], i'), h, Ordinal(c[h], i));
    IndexKeyOrder(h, Ordinal(c[h], i), h', Ordinal(c[h'], i'));
  }

  /** Every height with an indexed transaction has a key. */
  lemma KeyOfHeight(db: Store, c: Chain, p: set<int64>, h: int64) returns (k: bytes)
    requires ValidChain(c) && IndexKeysExact(db, c, p) && HasIndexed(c, p, h)
    ensures k in db && IsIndexKey(k) && |k| == TX_INDEX_KEY_LENGTH && BlockNumberOfKey(k) == h
  {
    var i :| 0 <= i < |c[h].txs| && Persisted(c[h], i);
    assert At(c, p, h, i);
    k := IndexKeyAt(c[h], i);
    KeyKinds(c, p, h, i);
    hide BlockNumberOfKey;
    BlockNumberOfIndexKey(h, Int32(Ordinal(c[h], i)));
  }
}
