# Evermint, modelled and verified

A Dafny model of the parts of the Evermint node that carry state, arithmetic or concurrency of their
own, with proofs of what they promise. `dafny verify dfyconfig.toml` checks the whole project.

**The EVM transaction index** (`GoInt`, `Varint`, `TxResultCodec`, `Options`, `Decimal`, `CosmosTx`,
`TxEvents`, `Lex`, `ByteOrder`, `BlockIndex`, `IndexRun`, `KVIndexer`). Index records go through a Protocol Buffers codec
that writes its buffer backwards and reads it with 64-bit wrap-around. `Marshal` fills exactly `Size()`
bytes, every record survives the round trip, and the decoder is characterised on every byte string.
On top of it, the index is determined for every run of `IndexBlock`: which keys it holds, what both
lookups answer, that order and repetition do not matter, and that byte order of keys is block order.

**Around the index** (`BlockScan`, `Receipts`, `ReceiptAgreement`, `IndexCommand`, `IndexerService`,
`ServiceIndex`). The
RPC backend answers either from the index or from a scan of the block; the two are proved to meet
exactly under stated conditions. So are the two separately written reconstructions of a missing receipt.
The service that feeds the index is a two-goroutine state machine whose every interleaving is covered,
and the result is carried over to what the lookups find after a run of the service.

**EIP-712 typing** (`StringOrder`, `Json`, `TypeNames`, `Eip712Payload`, `Eip712Types`, `Eip712Conforms`,
`Eip712Create`, `Eip712Limits`, `Eip712Crowded`, `Eip712Document`). Messages are flattened without loss, and
the types inferred for them, in one shared table with renaming on clashes, describe every message
recursively and are named after its type URL and field names; names run out only above a thousand objects,
and do on a payload of a thousand and one. The whole sign document has its primary type.

**USB wallets** (`UsbWallet`, `UsbCalls`, `UsbProgress`, `HealthCheck`, `HubRefresh`, `LedgerFraming`). The
two locks of a wallet and the pending counter of its hub are a state machine over any number of threads and
wallets; what every call does, which path is pinned for which account and that the locks never deadlock is
read off its runs. So is the handshake that ends a wallet's health checks. What a refresh makes of the hub's
list is determined exactly, and the Ledger chunk writer and reply reader are proved to undo each other.

**Ante checks and fees** (`CosmosLane`, `AnteChain`, `FeeChecker`, `RewardSweep`). The nested authz check
with its two sibling decorators and the lane tests in front of them, the fee checker of Cosmos transactions, and the percentile sweep of `eth_feeHistory`.

## What turned out differently

Where code and comments or plain expectation part, the model follows the code.

- Lookup by index keeps 32 bits of the index asked for. The indexed path agrees with the scan if nothing is
  stored under those bits, or the index is below 2^32 and every listed transaction before the stored one has
  an ordinal; with distinct hashes in the block, only then (`IndexedAnswerIsScanAnswer`). Index 2^32 of an
  indexed block is answered with its first transaction, where the scan has nothing (`LargeIndexIsAnswered`);
  `IrregularAnswersDiffer` is a block whose first transaction has no ordinal.
- The receipt of a single transaction counts the gas of earlier dropped transactions, the block's receipt
  list does not. The two answers for a transaction agree if and only if its receipt was emitted, or every
  listed transaction before has an ordinal and either there is none or the dropped gas is 0 modulo 2^64
  (`ReconstructionsAgree`, `BothReceipts`). A block of three on which they differ is in
  `ReconstructionsDiffer`; they agree when dropped transactions come last.
- `index-eth-tx backward` on an index without transactions says it starts from the latest block, and starts
  below it (`BackwardSkipsLatest`). The service likewise never hands over the block it starts at
  (`StartsAt`).
- The start-up failure threshold is 10, and a height is skipped at the eleventh failed fetch. The heights
  the service logs as skipped are those it skipped if and only if none failed and was then refused by the
  indexer (`ReportedExactly`); a run that logs a height it did not skip is in `RefusedIsReported`.
- A Ledger payload above 65530 bytes wraps the APDU length (`ReaderUndoesWriter`, `LengthWraps`).
- A refresh drops failed wallets in front of a device, but a working one that was not met among the devices
  hides the devices behind it. For any list and any order of enumeration, the list equals the devices if and
  only if every wallet in turn meets its device or has failed before one beyond it comes
  (`RefreshedExactly`, `WorkingWalletHides`, `OutOfOrderHides`); a list left out of order replaces a working
  wallet (`OutOfOrderReplaces`).
- Pinning a derived account panics if and only if every completed opening of the wallet was followed by a
  clearing (`PinPanics`); `PinAfterClose` is a run in which a close comes in between.
- A Close can return if and only if it is not stuck: sending on a channel that no heartbeat listens on, which
  is no longer the wallet's or has no heartbeat left alive (`ReturnsExactly`). Of two Closes on one channel
  one is stuck (`SecondCloseStuck`), and so is one overtaken by a failed check and a new Open
  (`ReopenedStuck`).
- A dynamic fee of zero panics the Cosmos fee checker, and so does a gas limit of zero (`PanicsExactly`).
- A gas limit above MaxInt64 turns negative in the Cosmos fee checker (`LargeGas`, `LargeGasRefused`). This
  is about the checker alone; in the ante handler basic validation comes before it.

## Model

| member | source | states |
|---|---|---|
| `Varint.DecodeEncode` | types/indexer.pb.go:145-155 | a varint written anywhere in a buffer reads back as the same number and ends where it was written to end |
| `Varint.DecodePrefix` | types/indexer.pb.go:189-202 | a successful read depends only on the bytes it consumed |
| `Varint.DecodeErrors` | types/indexer.pb.go:189-202 | groups that never end are the end of the input, or an overflow once there are ten |
| `Varint.SizeIsLength` | types/indexer.pb.go:177-179 | the bit-length formula of the size is the length of the encoding, at most ten |
| `Varint.EncodeAt` | types/indexer.pb.go:145-155 | the number is written so that it ends at the offset; nothing else in the buffer changes; the start is returned |
| `Varint.ReadLoop` | types/indexer.pb.go:227-243 | accumulating with or and shift in a type of any width yields the exact number truncated to that width, or the same error, for every byte string |
| `TxResultCodec.RoundTrip` | types/indexer.pb.go:97-309 | decoding an encoded record into a zero value gives the record, also with negative height and index |
| `TxResultCodec.ParseMarshaled` | types/indexer.pb.go:183-309 | decoding an encoded record over any value merges its non-zero fields in |
| `TxResultCodec.ParseConcat` | types/indexer.pb.go:183-309 | decoding a concatenation is decoding the second part over the result of the first, so an accepted input was consumed exactly |
| `TxResultCodec.TagErrors` | types/indexer.pb.go:188-202 | a tag cut short is rejected as the end of the input, one of more than ten groups as an overflow |
| `TxResultCodec.SkipPrefix` | types/indexer.pb.go:310-387 | a successful skip depends only on the bytes it passed |
| `TxResultCodec.SkipIndexer` | types/indexer.pb.go:310-387 | for every input: the length of the first field with its nested groups, at least one byte, or the error of the true position, despite wrap-around |
| `TxResultCodec.SkipBody` | types/indexer.pb.go:330-379 | after one wire-type case the wrapped index is negative exactly when the true position passes MaxInt64 |
| `TxResultCodec.WrapIsNegative` | types/indexer.pb.go:296-304 | the sum of two non-negative 64-bit integers is negative exactly when it overflows, which is what the length checks rely on |
| `TxResultCodec.TxResult.Size` | types/indexer.pb.go:156-175 | the size is the length of the encoding |
| `TxResultCodec.TxResult.WriteField` | types/indexer.pb.go:117-142 | a tagged field is put in front of what the buffer holds, or left out when zero |
| `TxResultCodec.TxResult.MarshalToSizedBuffer` | types/indexer.pb.go:112-143 | the end of the buffer holds the encoding, the rest is as before |
| `TxResultCodec.TxResult.Marshal` | types/indexer.pb.go:97-105 | a buffer of exactly the size, filled completely with the encoding |
| `TxResultCodec.TxResult.ReadField` | types/indexer.pb.go:216-293 | a field takes the number read, truncated to its own width, or the read error is passed on |
| `TxResultCodec.TxResult.ReadItem` | types/indexer.pb.go:188-304 | one turn of the loop: known field set, unknown field skipped, or rejected, always within bounds and forward |
| `TxResultCodec.TxResult.Unmarshal` | types/indexer.pb.go:183-309 | for every byte string: rejected with the error, or the parsed record over the previous value |
| `CosmosTx.HasSingleEthereumMessage` | app/antedl/utils/tx.go:12-25 | true exactly when there is one message and it is an Ethereum one |
| `CosmosTx.IsEthereumTx` | app/antedl/utils/tx.go:29-52 | true exactly when also the extension options are none or just the Ethereum one |
| `TxEvents.ParseTxResult` | rpc/types/events.go:23-61 | an error exactly when an index attribute is not a 31-bit number; a result exactly when execution was reached; the last hash and index win; failed exactly when the code, a missing event or a VM error says so |
| `TxEvents.FillTxAttributes` | rpc/types/events.go:94-101 | the last index attribute wins, a VM error attribute marks the failure, an unreadable index is an error |
| `TxEvents.FillTxAttribute` | rpc/types/events.go:65-92 | the same for one attribute |
| `Decimal.ParseUintExact` | rpc/types/events.go:65-92 | an index is read exactly from the decimal numerals below the limit, leading zeros allowed |
| `TxEvents.TxWasDroppedPreAnteHandleDueToBlockGasExcess` | x/evm/types/events.go:99-111 | true exactly for a result with a non-zero code and no Ethereum-transaction event |
| `ByteOrder.BigEndian64Order` | indexer/kv_indexer.go:237-241 | byte order of 8-byte big-endian numbers is numeric order |
| `BlockIndex.IndexKeyOrder` | indexer/kv_indexer.go:237-241 | byte order of index keys is the order of the 64-bit patterns of (height, ordinal); numeric order where neither is negative |
| `BlockIndex.IndexKeyInjective` | indexer/kv_indexer.go:237-241 | an index key determines height and ordinal |
| `BlockIndex.OrdinalIncreases` | indexer/kv_indexer.go:74-144 | ordinals strictly increase along the block |
| `BlockIndex.BatchKeys` | indexer/kv_indexer.go:74-156 | every key a block writes is the hash key or index key of one of its persisted transactions |
| `BlockIndex.BatchIndexKey` | indexer/kv_indexer.go:275-284 | every persisted transaction has its index key, holding its hash |
| `BlockIndex.BatchHashKey` | indexer/kv_indexer.go:275-284 | every persisted transaction has its hash key, holding the record of the last one with that hash |
| `IndexRun.RunKeys` | indexer/kv_indexer.go:67-156 | after any run the keys are exactly those of the processed transactions |
| `IndexRun.RunRecords` | indexer/kv_indexer.go:67-156 | with distinct hashes every processed transaction's own record is stored |
| `IndexRun.IndexPointsToStoredHash` | indexer/kv_indexer.go:275-284 | after any run an index key holds the hash of a stored transaction |
| `IndexRun.LookupsAgree` | indexer/kv_indexer.go:204-229 | both lookups return the same record, with the height and ordinal asked for and the right failure flag |
| `IndexRun.LookupSound` | indexer/kv_indexer.go:220-229 | for any numbers asked, an answer is the record of the transaction of that block with that ordinal |
| `IndexRun.RunsAgree` | indexer/kv_indexer.go:67-156 | two runs over the same blocks, in any order and with any repetition, leave the same index |
| `IndexRun.ReindexChangesNothing` | indexer/kv_indexer.go:67-156 | indexing a block again changes nothing |
| `IndexRun.KeysFollowHeights` | indexer/kv_indexer.go:244-267 | of two stored index keys the larger one holds no smaller height |
| `IndexRun.RangeIsPrefix` | indexer/kv_indexer.go:244-267 | the iterator range from the prefix to its successor holds exactly the index keys |
| `KVIndexer.LoadLastBlock` | indexer/kv_indexer.go:244-254 | on the index of any processed blocks, the greatest height with a persisted Ethereum transaction, or -1 |
| `KVIndexer.LoadFirstBlock` | indexer/kv_indexer.go:257-267 | likewise the least |
| `KVIndexer.ParseBlockNumberFromKey` | indexer/kv_indexer.go:286-292 | the height in a key of the right length, an error for any other |
| `KVIndexer.SaveTxResult` | indexer/kv_indexer.go:275-284 | the encoded record under the hash key and the hash under the index key |
| `KVIndexer.KVIndexer.constructor` | indexer/kv_indexer.go:47-57 | not ready, with no block requested yet |
| `KVIndexer.KVIndexer.IndexTx` | indexer/kv_indexer.go:75-144 | one turn of the loop extends the batch and the ordinal as the whole-block specification says |
| `KVIndexer.KVIndexer.IndexBlock` | indexer/kv_indexer.go:67-156 | the store gains exactly the block's batch and the last requested block only rises; nothing changes when the batch cannot be written |
| `KVIndexer.KVIndexer.Ready` | indexer/kv_indexer.go:158-162 | marks the index ready and changes nothing else |
| `KVIndexer.KVIndexer.GetByHash` | indexer/kv_indexer.go:204-217 | the stored record, not found, or corrupt, through the decoder |
| `KVIndexer.KVIndexer.GetByPosition` | indexer/kv_indexer.go:220-229 | the record of the hash stored at the position |
| `KVIndexer.KVIndexer.GetLastRequestIndexedBlock` | indexer/kv_indexer.go:192-201 | the last block requested, else the last one in the store |
| `BlockScan.EthMsgsFromCometBFTBlock` | rpc/backend/blocks.go:236-265 | the messages of the listed transactions in block order |
| `BlockScan.ScanAt` | rpc/backend/blocks.go:236-265 | every listed transaction stands in the scan at the number of listed ones before it |
| `BlockScan.ScanHolder` | rpc/backend/blocks.go:236-265 | every place of the scan belongs to a listed transaction |
| `BlockScan.OrdinalIsScanPosition` | indexer/kv_indexer.go:74-144 | the stored ordinal is the position in the scan if and only if every listed transaction before passes the lane test and parses |
| `BlockScan.GetTransactionByBlockAndIndex` | rpc/backend/tx_info.go:318-350 | the answer of the index path with its fallback, panics included |
| `BlockScan.PathsMeet` | rpc/backend/tx_info.go:318-350 | for a stored transaction both paths name the same message if every listed one before has an ordinal, and with distinct hashes only then |
| `BlockScan.IndexedAnswerIsScanAnswer` | rpc/backend/tx_info.go:318-350 | after any run, for any block and index, the exact condition under which the indexed answer is the scan's |
| `BlockScan.RegularBlockAnswers` | rpc/backend/tx_info.go:318-350 | in particular it is, below 2^32, in a block whose listed transactions all pass the lane test and parse |
| `BlockScan.LargeIndexIsAnswered` | rpc/backend/tx_info.go:312-315 | index 2^32 of an indexed block is answered with its first transaction, where the scan has nothing |
| `Receipts.TxReceiptFromEvent` | rpc/backend/utils.go:238-246 | the first receipt event decides: its gas, its parse error, or none |
| `Receipts.BlockReceiptList` | rpc/backend/blocks.go:386-437 | on any store the listing that the loop over the scan gives; on an index of distinct transactions it succeeds exactly when every listed transaction is stored with a receipt that parses, never crashes, and lists the receipts in scan order, rebuilding missing ones |
| `Receipts.AddPrevious` | rpc/backend/blocks.go:426-428 | the cumulative gas is the exact sum in 64 bits |
| `Receipts.ReceiptStep` | rpc/backend/blocks.go:386-437 | one turn of the receipt loop, with its error and crash cases |
| `Receipts.StepAppends` | rpc/backend/blocks.go:386-437 | on an indexed block the loop appends the transaction's own receipt, or fails |
| `Receipts.GasOfEarlier` | rpc/backend/tx_info.go:203-225 | one earlier transaction adds its gas if it is a single Ethereum message, dropped or not, and nothing if its receipt does not parse |
| `Receipts.GasOfPrevious` | rpc/backend/tx_info.go:200-226 | the sum over earlier transactions is the gas of the listed and of the dropped ones, in 64 bits |
| `Receipts.FindInScan` | rpc/backend/tx_info.go:150-165 | the first place of the hash in the scan, or -1 exactly when it has none |
| `Receipts.ReceiptAlone` | rpc/backend/tx_info.go:176-242 | the receipt of the event, or the one rebuilt with the gas before it |
| `Receipts.GetTransactionReceipt` | rpc/backend/tx_info.go:128-242 | on any store and chain the answer with its error and crash cases; for a listed transaction of an indexed block its receipt, or none if it was not stored |
| `Receipts.ListedAnswer` | rpc/backend/tx_info.go:128-242 | on an indexed block the answer for a listed transaction is the receipt it emitted, or the one rebuilt for it alone |
| `Receipts.SumIsGasBefore` | rpc/backend/blocks.go:426-436 | the receipts so far add up to the gas of the listed transactions before |
| `Receipts.ReconstructionsAgree` | rpc/backend/tx_info.go:193-242 | both reconstructions give the same gas used, cumulative gas and index if and only if every listed transaction before has an ordinal and there is none or the dropped gas before is 0 modulo 2^64 |
| `Receipts.ReconstructionsAgreeOnSuffix` | rpc/backend/blocks.go:386-437 | they agree in every block whose dropped transactions come last |
| `ReceiptAgreement.IndexedAfterRun` | indexer/kv_indexer.go:67-156 | what the receipt calls rely on holds after every run over blocks with distinct transactions |
| `ReceiptAgreement.ListEntry` | rpc/backend/blocks.go:386-437 | the list holds, at the place of a transaction in the scan, that transaction's own receipt |
| `ReceiptAgreement.EntryIsAnswer` | rpc/backend/tx_info.go:176-242 | that entry is the answer for the transaction alone if and only if its receipt was emitted or the reconstructions agree |
| `ReceiptAgreement.BothReceipts` | rpc/backend/tx_info.go:128-242 | the block's list and the single receipt, asked of the index after any run, agree exactly under that condition |
| `ReceiptAgreement.ReconstructionsDiffer` | rpc/backend/tx_info.go:199-226 | a block of an executed, a dropped and a gas-starved transaction on which the two rebuilt receipts differ |
| `ReceiptAgreement.IrregularAnswersDiffer` | rpc/backend/tx_info.go:318-350 | a block whose first transaction has no ordinal, on which the index changes the answer for index 0 |
| `IndexCommand.IndexOne` | server/indexer_cmd.go:65-79 | the block is added to the processed ones, or nothing changes when it cannot be loaded or written |
| `IndexCommand.Backward` | server/indexer_cmd.go:82-98 | wherever it stops, exactly the blocks from there up to below the first indexed one were added; ready exactly on success |
| `IndexCommand.Forward` | server/indexer_cmd.go:99-115 | likewise upwards from the last indexed one |
| `IndexCommand.BackwardLeavesNoGap` | server/indexer_cmd.go:91-95 | a processed interval stays an interval at every stop and ends as [1, b] |
| `IndexCommand.ForwardLeavesNoGap` | server/indexer_cmd.go:108-112 | a processed interval stays an interval at every stop and ends as [a, max(b, height)] |
| `IndexCommand.BackwardSkipsLatest` | server/indexer_cmd.go:87-91 | whatever was processed, if none of it holds an indexed transaction a completed run adds exactly the heights below the latest block, and never that one |
| `IndexerService.InitInv` | server/indexer_service.go:48-126 | the invariant holds when the loops start |
| `IndexerService.StepInv` | server/indexer_service.go:74-188 | every step of either goroutine keeps the whole invariant |
| `IndexerService.WakeStep` | server/indexer_service.go:74-161 | every step keeps: a parked loop behind the latest block has a token waiting or coming |
| `IndexerService.FailureStep` | server/indexer_service.go:112-127 | a failed fetch keeps the counts: tracker equals failures, skip exactly at the eleventh |
| `IndexerService.IndexStep` | server/indexer_service.go:179-186 | handing a height over keeps the counts and the tracker |
| `IndexerService.NoLostWakeUp` | server/indexer_service.go:74-161 | in every state of every run, a loop parked although a newer block is known has a token in the slot or one about to be sent; and a token in the slot when a header beyond the last indexed block was delivered and dealt with |
| `IndexerService.LatestIsDelivered` | server/indexer_service.go:74-97 | whenever the header goroutine has dealt with what it received, the latest block is the greatest of the initial one and all delivered |
| `IndexerService.SlotExactly` | server/indexer_service.go:82-86 | the slot holds a token if and only if one was sent since the last was taken |
| `IndexerService.CatchesUp` | server/indexer_service.go:129-188 | from every state of every run the loop, while fetches and hand-overs succeed, comes to park, ready and with the latest known block indexed, and without a timeout if the header goroutine is at rest |
| `IndexerService.EveryHeightSettled` | server/indexer_service.go:162-188 | in every run each height up to the last indexed one was handed over exactly once, or skipped once after exactly eleven failures; no other was; nothing is skipped once ready |
| `IndexerService.ReportedAsSkipped` | server/indexer_service.go:144-151 | at readiness the reported heights are those that failed and were not indexed successfully since |
| `IndexerService.FrontStep` | server/indexer_service.go:140-187 | every step keeps: a height that failed and is not settled is known, so none is left over at readiness |
| `IndexerService.ReportedExactly` | server/indexer_service.go:144-151 | the heights reported as skipped are those skipped if and only if none failed and was then refused by the indexer |
| `IndexerService.RefusedIsReported` | server/indexer_service.go:179-186 | a run that reports a height as skipped although it was handed over |
| `IndexerService.NeverDecreases` | server/indexer_service.go:129-188 | the last indexed and the latest known block never decrease over a run |
| `IndexerService.StartsAt` | server/indexer_service.go:100-110 | a run starts at the latest block on an empty index, else at the later of its last block and the earliest one; that block is never handed over, and every height above it up to the last is settled |
| `ServiceIndex.ServiceAnswers` | server/indexer_service.go:162-188 | on top of any earlier index, after any run both lookups find every persisted transaction of every height indexed before, and of every settled height that was neither skipped nor refused |
| `ServiceIndex.ServiceAnswersOnly` | server/indexer_service.go:162-188 | and an answer by position belongs to a height indexed before, or handed over exactly once between start and last |
| `Json.SortedJSONKeys` | ethereum/eip712/types.go:224-244 | the field names in strictly descending order, whatever order the map is visited in |
| `Json.OrderUnique` | ethereum/eip712/types.go:239-241 | a set of names has only one descending order, so type generation is deterministic |
| `TypeNames.SanitizeTypedef` | ethereum/eip712/types.go:338-356 | the joined title-cased parts, with the root part spelled "Type"; the same as one pass over the text |
| `TypeNames.SanitizedIsCamel` | ethereum/eip712/types.go:338-356 | splitting, title-casing and joining is one pass that leaves out dots and underscores and raises the first letter of every word |
| `TypeNames.RootTypeIs` | ethereum/eip712/types.go:122-125 | the root type is "Type" and what follows the last slash of the type URL |
| `TypeNames.SanitizedBelow` | ethereum/eip712/types.go:338-356 | a name below the root starts with "Type" and has no dot or underscore |
| `TypeNames.KeyFixed` | ethereum/eip712/types.go:208 | sanitizing a key that was returned for a sub-object changes nothing, so the key it names exists |
| `TypeNames.WithIndexIsTypeKey` | ethereum/eip712/types.go:312-314 | an indexed name can never be Tx or a primitive type |
| `Eip712Payload.FlattenPayloadMessages` | ethereum/eip712/message.go:69-91 | accepted exactly when the messages are objects and every target field is free; message i at its field, the array gone, all else unchanged; else the first message in the way |
| `Eip712Payload.GetPayloadMessages` | ethereum/eip712/message.go:94-106 | the array of messages, or which of the two errors |
| `Eip712Payload.MoveNext` | ethereum/eip712/message.go:110-130 | moving one more message disturbs no other field and no earlier message |
| `Eip712Payload.MsgFieldInjective` | ethereum/eip712/message.go:134-136 | different messages get different fields |
| `Eip712Payload.UnflattenFlattened` | ethereum/eip712/message.go:69-147 | the flattened object and the message count give the payload back |
| `Eip712Payload.FlatteningInjective` | ethereum/eip712/message.go:69-147 | two payloads with the same flattening and count are the same |
| `Eip712Types.FirstFit` | ethereum/eip712/types.go:278-308 | the least index that is free or holds the same definition, below 1000 |
| `Eip712Types.FirstFitIs` | ethereum/eip712/types.go:278-308 | the outcome depends only on which indices are taken |
| `Eip712Types.ConformsMonotone` | ethereum/eip712/types.go:143-220 | conformance survives every extension of the table |
| `Eip712Conforms.AddTypesFinds` | ethereum/eip712/types.go:278-308 | the definition is at the returned key and no existing one is lost or changed |
| `Eip712Conforms.AddTypesFails` | ethereum/eip712/types.go:298-302 | it fails if and only if a thousand other definitions bear the name |
| `Eip712Conforms.InferSound` | ethereum/eip712/types.go:143-220 | what is inferred for any object describes it recursively, in a table that only grew and in which every named type exists; every type bears the name of its place, with an index below a thousand |
| `Eip712Conforms.InferFieldsSound` | ethereum/eip712/types.go:159-217 | the entries are exactly the supported fields, in order, each of its own type |
| `Eip712Conforms.InferFieldSound` | ethereum/eip712/types.go:160-216 | one field: kind of the value, first element for arrays, key of the sub-object, nothing for null and nested arrays |
| `Eip712Conforms.InferAgain` | ethereum/eip712/types.go:271-277 | inferring the same object in any later table returns the same key and leaves the table alone |
| `Eip712Conforms.InferFails` | ethereum/eip712/types.go:143-220 | inference of an object fails only when a name is used up |
| `Eip712Create.TypeTable.constructor` | ethereum/eip712/types.go:36-75 | the table starts with the four predefined types |
| `Eip712Create.TypeTable.AddTypesToRoot` | ethereum/eip712/types.go:278-308 | the loop leaves the table and returns the key that first fit prescribes |
| `Eip712Create.TypeTable.RecursivelyAddTypesToRoot` | ethereum/eip712/types.go:143-220 | the table updated in place, also on failure, and the key are those of the inference function |
| `Eip712Create.TypeTable.AddField` | ethereum/eip712/types.go:160-216 | one turn of its loop |
| `Eip712Create.TypeTable.AddMsgTypesToRoot` | ethereum/eip712/types.go:91-137 | a message that is an object with a non-empty type gets its types and its entry in Tx; any other is refused |
| `Eip712Create.AddMsgSound` | ethereum/eip712/types.go:91-111 | one more message keeps every earlier one typed |
| `Eip712Create.CreateSound` | ethereum/eip712/types.go:35-87 | on success Tx lists its own fields and then every message, each conforming to the type named, which is "Type", the last part of its type URL and an index; predefined types unchanged; every named type exists |
| `Eip712Create.EarlierKept` | ethereum/eip712/types.go:77-84 | a later message never changes an earlier definition |
| `Eip712Create.CreateEIP712Types` | ethereum/eip712/types.go:35-87 | a table as above, or none exactly when the creation function fails |
| `Eip712Create.CreateFails` | ethereum/eip712/types.go:77-84 | failure means a message that is no object with a type, or a used-up name |
| `Eip712Limits.InferAdds` | ethereum/eip712/types.go:143-220 | inference adds at most one definition for every object it visits |
| `Eip712Limits.ExhaustedCount` | ethereum/eip712/types.go:298-302 | a used-up name means a thousand definitions |
| `Eip712Limits.SmallPayloadsSucceed` | ethereum/eip712/types.go:35-87 | creation succeeds on every payload whose messages are objects with a type and hold at most a thousand objects together |
| `Eip712Crowded.ThousandFit` | ethereum/eip712/types.go:278-308 | a thousand messages of one type with different fields take the thousand keys of its name |
| `Eip712Crowded.OneTooMany` | ethereum/eip712/types.go:298-302 | with one message more, a thousand and one objects, creation fails, so the bound is tight |
| `Eip712Create.TypedDataConforms` | ethereum/eip712/eip712.go:9-34 | every message of the original payload, flattened and typed, conforms to the type of its Tx entry, named after its type URL |
| `Eip712Document.SignDocTyped` | ethereum/eip712/types.go:36-87 | for a sign document Tx lists exactly the fields of the flattened document, each once, and its own fields, fee and coins included, have their types |
| `Eip712Document.DomainTyped` | ethereum/eip712/domain.go:9-19 | the domain has its type |
| `UsbWallet.InitInv` | wallets/usbwallet/hub.go:82-97 | the invariant holds before anything is opened |
| `UsbWallet.StepInv` | wallets/usbwallet/wallet.go:110-359 | every step of every thread keeps the whole invariant |
| `UsbWallet.SelfStep` | wallets/usbwallet/wallet.go:110-359 | a thread that moves agrees with its wallet on locks, token, device and paths |
| `UsbWallet.OtherStep` | wallets/usbwallet/wallet.go:110-359 | no step of one thread disturbs what another relies on |
| `UsbWallet.CoherentStep` | wallets/usbwallet/wallet.go:262-300 | every step that does not panic keeps accounts and paths in line |
| `UsbWallet.AtMostOneBusy` | wallets/usbwallet/wallet.go:110-359 | in every state of every run at most one thread opens, initialises, talks to or clears a device |
| `UsbWallet.ExchangeHasDevice` | wallets/usbwallet/wallet.go:319-359 | every exchange finds the device open, and a signing uses the path pinned for its account |
| `UsbWallet.PendCounts` | wallets/usbwallet/wallet.go:342-352 | the pending counter is the number of threads between raising and lowering it |
| `UsbWallet.ScanExcludesSigning` | wallets/usbwallet/hub.go:133-169 | on Linux no enumeration overlaps a signing on any wallet |
| `UsbWallet.TokenNeverLost` | wallets/usbwallet/wallet.go:72-88 | the communication token of an open device is in its channel or with exactly one thread |
| `UsbWallet.AccountsAreKeys` | wallets/usbwallet/wallet.go:290-299 | pinned accounts are the keys of the paths, each once; a closed wallet has neither |
| `UsbWallet.PathsExactly` | wallets/usbwallet/wallet.go:110-233 | in every state of every run a wallet has paths if and only if some opening was completed and no clearing came after it |
| `UsbWallet.PathsHardened` | wallets/usbwallet/wallet.go:262-310 | every pinned path and every path derived or signed with has its first three values hardened |
| `UsbWallet.HardenHardens` | wallets/usbwallet/wallet.go:304-310 | hardening sets the top bit of the first three values, keeps all other bits and values, and changes nothing the second time |
| `UsbWallet.PinPanics` | wallets/usbwallet/wallet.go:290-299 | in every run pinning panics if and only if every completed opening of the wallet so far was followed by a clearing |
| `UsbWallet.CrashesExactly` | wallets/usbwallet/wallet.go:262-310 | a run crashes exactly with a panic of the driver, with deriving a path of fewer than three values, or with a pinning on a wallet left without a completed opening |
| `UsbWallet.PinAfterClose` | wallets/usbwallet/wallet.go:188-300 | a run in which a wallet is opened completely, an account derived, the wallet cleared by another thread, and the pinning of the account panics |
| `UsbCalls.CallsAccounted` | wallets/usbwallet/wallet.go:110-359 | in every state of every run, what a thread has done since it began its last call is one of the step sequences of that call, or the part of it up to where it stands; a failed check closes the wallet and a derived account is pinned |
| `UsbCalls.DerivedPath` | wallets/usbwallet/wallet.go:262-310 | every path exchanged by a derivation or pinned is the one given to it at the same wallet, but for hardening, and the account pinned is the one the exchange gave |
| `UsbCalls.PinnedExactly` | wallets/usbwallet/wallet.go:221-300 | an account has a path if and only if it was pinned and the wallet not cleared since, and it is the path of the first such pinning |
| `UsbCalls.DeviceExactly` | wallets/usbwallet/wallet.go:110-233 | a wallet has its device if and only if a connection succeeded and was not cleared since |
| `UsbCalls.BranchesExactly` | wallets/usbwallet/wallet.go:110-359 | told by the moves before: when an opening goes on to the driver, a call to the device and with which path a signing does, a close clears, and an enumeration goes on |
| `UsbProgress.NoDeadlock` | wallets/usbwallet/wallet.go:110-359 | as long as some call has not returned, some thread can go on with its own |
| `UsbProgress.BeginsExactly` | wallets/usbwallet/wallet.go:110-359 | when a call can begin, told by what the other threads are at |
| `UsbProgress.ReadersShare` | wallets/usbwallet/wallet.go:262-272 | a run in which two calls hold the state lock of a wallet for reading |
| `HealthCheck.StepInv` | wallets/usbwallet/wallet.go:110-215 | every step keeps: a wallet with a channel has a heartbeat alive or a Close at work on clearing it, and who waits for an answer gets one |
| `HealthCheck.OpenExactly` | wallets/usbwallet/wallet.go:110-233 | the wallet is open if and only if it was opened and neither closed nor taken down by a failed check since; its channel is that of the last Open until a Close |
| `HealthCheck.ClosesClear` | wallets/usbwallet/wallet.go:188-215 | a caller is out of Close if and only if all of its Closes have cleared the wallet |
| `HealthCheck.StuckForEver` | wallets/usbwallet/wallet.go:188-200 | a Close that is stuck stays stuck, whatever happens |
| `HealthCheck.ReturnsExactly` | wallets/usbwallet/wallet.go:188-215 | in every state of every run a Close that has begun can return if and only if it is not stuck |
| `HealthCheck.StuckMeansOvertaken` | wallets/usbwallet/wallet.go:188-215 | it is stuck only if the channel has changed since it was read, or another Close is at work |
| `HealthCheck.SecondCloseStuck` | wallets/usbwallet/wallet.go:188-200 | a run in which the second of two Closes on one channel is stuck |
| `HealthCheck.ReopenedStuck` | wallets/usbwallet/wallet.go:144-200 | a run in which a single Close is stuck because a failed check and a new Open came in between |
| `HubRefresh.MatchDevices` | wallets/usbwallet/hub.go:156-164 | the enumerated devices of a listed product that match by usage page or interface, each once, in order |
| `HubRefresh.Hub.Refresh` | wallets/usbwallet/hub.go:171-215 | the list in place becomes the merge of the known wallets, any of which may have failed, with the devices; the wallets stay different objects |
| `HubRefresh.Hub.Place` | wallets/usbwallet/hub.go:176-211 | one turn of the loop adds what the merge adds for the device |
| `HubRefresh.Hub.DropFront` | wallets/usbwallet/hub.go:183-191 | exactly the failed wallets at the front that stand before the device are dropped |
| `HubRefresh.DropStaleIs` | wallets/usbwallet/hub.go:183-191 | what is dropped is a prefix of failed wallets before the device, as long as possible |
| `HubRefresh.RefreshedExactly` | wallets/usbwallet/hub.go:171-215 | for any list and devices in any order, the wallets are exactly the devices if and only if every wallet in turn meets its device or has failed before one beyond it comes |
| `HubRefresh.MeetsInOrder` | wallets/usbwallet/hub.go:171-215 | on a list in order that is: no working wallet stands before a device without having been met before it |
| `HubRefresh.MeetStep` | wallets/usbwallet/hub.go:176-211 | the condition, read wallet by wallet, splits into the first device being placed and the condition for the rest |
| `HubRefresh.MergeOlder` | wallets/usbwallet/hub.go:193-209 | a refresh keeps the wallets different objects, new ones newer than all known |
| `HubRefresh.FirstRefreshComplete` | wallets/usbwallet/hub.go:82-97 | the first refresh lists every device, in any order |
| `HubRefresh.KeptOrNew` | wallets/usbwallet/hub.go:193-209 | for any list and devices in any order, a new wallet is wrapped only if every known wallet of the device was taken or dropped at an earlier device, or stands behind one beyond it |
| `HubRefresh.RefreshedInOrder` | wallets/usbwallet/hub.go:171-215 | for any list and any devices, the wallets stand in the order of the devices, one at most for each |
| `HubRefresh.RefreshedAscending` | wallets/usbwallet/hub.go:171-215 | so devices in order leave a list in order, whatever it was before |
| `HubRefresh.WorkingWalletHides` | wallets/usbwallet/hub.go:183-209 | one working wallet without a device hides the device behind it |
| `HubRefresh.OutOfOrderHides` | wallets/usbwallet/hub.go:183-209 | two working wallets whose devices are enumerated the other way round lose one |
| `HubRefresh.OutOfOrderReplaces` | wallets/usbwallet/hub.go:183-209 | a list out of order replaces a working wallet by a new one although its device is there |
| `LedgerFraming.WriteChunks` | wallets/usbwallet/ledger.go:375-397 | the chunks written, all of them or those before the failing write |
| `LedgerFraming.ChunksCarry` | wallets/usbwallet/ledger.go:375-397 | every chunk has the header, at most 64 bytes and its number; all but the last are full; together they carry the APDU |
| `LedgerFraming.ReadReply` | wallets/usbwallet/ledger.go:398-429 | for every byte stream: the reply, a short read, a bad header or a panic |
| `LedgerFraming.LedgerExchange` | wallets/usbwallet/ledger.go:366-430 | writes first, then reads, and stops at the first failing write; what is written carries, byte by byte, the length, class, instruction, parameters, data length and data |
| `LedgerFraming.ReadRest` | wallets/usbwallet/ledger.go:400-429 | from a later chunk on the reader takes exactly what is left of the reply |
| `LedgerFraming.ReadWritten` | wallets/usbwallet/ledger.go:366-430 | for every payload, reading back gives the first (5 + length) mod 2^16 bytes of the body without the last two, or a panic |
| `LedgerFraming.ReaderUndoesWriter` | wallets/usbwallet/ledger.go:366-430 | the reader undoes the writer, status word apart, if and only if the payload has at most 65530 bytes |
| `LedgerFraming.LengthWraps` | wallets/usbwallet/ledger.go:371 | with 65531 bytes the length field is zero and the reader panics |
| `LedgerFraming.DataLengthByte` | wallets/usbwallet/ledger.go:372 | the length byte inside the APDU is the data length if and only if that is at most 255 |
| `RewardSweep.SortByReward` | rpc/backend/utils.go:182 | some order of the same transactions by reward |
| `RewardSweep.Sweep` | rpc/backend/utils.go:184-194 | at i the reward at the least index whose 64-bit prefix gas reaches the largest of the first i + 1 thresholds, else the last, for thresholds in any order |
| `RewardSweep.Advance` | rpc/backend/utils.go:189-192 | stops at the first index from where it began that reaches the threshold, else at the last |
| `RewardSweep.NextLeast` | rpc/backend/utils.go:187-194 | going on from where the last threshold stopped is as good as starting again |
| `RewardSweep.SweepMonotone` | rpc/backend/utils.go:187-194 | rewards never decrease |
| `RewardSweep.LeastReachingIsQuantile` | rpc/backend/utils.go:182-194 | without overflow the reward reported is the least one such that transactions rewarded at most that much used the threshold gas |
| `RewardSweep.SameQuantile` | rpc/backend/utils.go:182 | the order among equal rewards, which the sort leaves open, does not matter |
| `RewardSweep.QuantileUnique` | rpc/backend/utils.go:182-194 | there is only one such reward |
| `RewardSweep.Rewards` | rpc/backend/utils.go:139-194 | zeros without transactions; else the sweep of some order by reward, non-decreasing, each the gas-weighted quantile of the unsorted transactions when their gas fits 64 bits |
| `CosmosLane.CheckExact` | app/antedl/cosmoslane/992c_reject_authz_msgs.go:44-77 | the recursive check passes if and only if every message at every depth is allowed there |
| `CosmosLane.RejectedFor` | app/antedl/cosmoslane/992c_reject_authz_msgs.go:44-77 | a rejection names a message for which the error is true: nested disabled type, disabled grant, excess depth or malformed content |
| `CosmosLane.RejectEthereumMsgs` | app/antedl/cosmoslane/991c_reject_eth_msgs.go:20-38 | rejected exactly when an Ethereum message is mixed in at the top |
| `CosmosLane.RejectAuthzMsgs` | app/antedl/cosmoslane/992c_reject_authz_msgs.go:32-42 | accepted exactly when the whole tree is allowed, or it is a single Ethereum message |
| `CosmosLane.AuthorizeVesting` | app/antedl/cosmoslane/993c_vesting_msg_authorization.go:30-58 | accepted exactly when the account of every creation of a vesting, periodic vesting or permanently locked account at the top is proven; else the first unproven one decides between rejection and panic |
| `CosmosLane.CheckMessages` | app/antedl/cosmoslane/992c_reject_authz_msgs.go:32-42 | the three in a row accept exactly what all three allow, and panic exactly when the first two do and the first unproven account is no address |
| `CosmosLane.DefaultLaneExact` | app/antedl/handler_options.go:48-57 | with the default list a transaction passes if and only if it is a single Ethereum message or every message at every depth, constructor by constructor, is admitted there |
| `CosmosLane.DefaultLane` | app/antedl/handler_options.go:48-57 | in particular no Ethereum message at any depth, the three account creations only at the top with proof, no grant of the four disabled types, no message below level 3 |
| `AnteChain.CheckExtensionOptions` | app/antedl/duallane/02_ext_opt.go:25-35 | a single Ethereum message goes on exactly when it is an Ethereum transaction |
| `AnteChain.ValidateBasic` | app/antedl/duallane/03_validate_basic.go:35-123 | outside a re-check a single Ethereum message must be an Ethereum transaction, and no other transaction may have one at the top |
| `AnteChain.AnteHandle` | app/antedl/ante.go:18-55 | what the lane tests and the three Cosmos-lane decorators accept together, for any answers of the rest of the chain |
| `AnteChain.EthereumOnlyInItsLane` | app/antedl/ante.go:18-55 | an accepted transaction holds an Ethereum message at some depth if and only if it is an Ethereum transaction, and then that message is all it holds |
| `FeeChecker.GetMinGasPricesAllowed` | app/antedl/duallane/07_deduct_fee.go:220-240 | the largest of the minimums that apply in the mode |
| `FeeChecker.GetTxPriority` | app/antedl/duallane/07_deduct_fee.go:244-264 | refused below the minimum, else the price capped at MaxInt64; a panic without gas |
| `FeeChecker.FindTip` | app/antedl/duallane/07_deduct_fee.go:92-100 | the first dynamic-fee option decides |
| `FeeChecker.CosmosTxFeeChecker` | app/antedl/duallane/07_deduct_fee.go:65-131 | refused, panicking or charged as the fee rules say, for every fee list, gas and option list |
| `FeeChecker.EffectiveBelowDeclared` | app/antedl/duallane/07_deduct_fee.go:102-122 | the fee charged is at most the declared one |
| `FeeChecker.AcceptedExactly` | app/antedl/duallane/07_deduct_fee.go:86-131 | up to MaxInt64 gas accepted if and only if the single fee pays every applicable minimum for all the gas, and a tip, if there is one, is not negative, reaches every minimum with the base fee and leaves a price above zero |
| `FeeChecker.ChargedFee` | app/antedl/duallane/07_deduct_fee.go:102-131 | what is charged is the declared fee, or the dynamic price for all the gas; the priority is the price, capped |
| `FeeChecker.PanicsExactly` | app/antedl/duallane/07_deduct_fee.go:104-131 | a panic exactly on a payable transaction without gas or with a dynamic price of zero |
| `FeeChecker.Truncates` | app/antedl/duallane/07_deduct_fee.go:226-236 | minimum prices are cut off to whole units |
| `FeeChecker.DynamicPrice` | app/antedl/duallane/07_deduct_fee.go:104-118 | the dynamic price is the largest that neither tip plus base fee nor the declared fee exceeds; it reaches a minimum if and only if both do |
| `FeeChecker.LargeGas` | app/antedl/duallane/07_deduct_fee.go:125 | above MaxInt64 accepted if and only if all minimums are zero and the fee is below 2^64 minus the gas |
| `FeeChecker.LargeGasRefused` | app/antedl/duallane/07_deduct_fee.go:125 | a gas limit of 2^63 paying ten times the minimum is refused |
| `FeeChecker.CheckTxImpliesDelivery` | app/antedl/duallane/07_deduct_fee.go:220-240 | what CheckTx accepts, ReCheckTx and delivery accept with the same fee and priority |

## Left out

- TxResultCodec.TxResult.Unmarshal: says nothing of the receiver's fields after a rejected input, because callers drop it.
- TxResultCodec.TxResult.ReadItem: likewise after a rejected item.
- TxResultCodec.TxResult.ReadField: likewise after a read error.
- TxEvents.ParseTxResult: the hash stays the text of its attribute; decoding it from hexadecimal is go-ethereum's.
- TxEvents.FillTxAttributes: likewise.
- TxEvents.FillTxAttribute: likewise.
- IndexRun.LookupsAgree: assumes at most 2^31 transactions in a block, above which the 32-bit ordinals would repeat.
- IndexerService.NoLostWakeUp: the quit and re-broadcast branches are left out, and so is any claim about shutdown or progress.
- Receipts.TxReceiptFromEvent: an emitted receipt is reduced to its gas used, or to the failure to parse it.
- Receipts.BlockReceiptList: logs, bloom and the other fields of an emitted receipt are left out.
- Receipts.ReceiptAlone: likewise, with the effective gas price and the contract address.
- Receipts.GetTransactionReceipt: likewise, and pending transactions are left out.
- TypeNames.SanitizeTypedef: title case is that of ASCII letters and digits.
- Eip712Document.SignDocTyped: about documents without fee payer, fee granter and timeout height, for which Tx has no fields.
- Eip712Create.CreateEIP712Types: field names are keys, not gjson paths, without duplicates.
- Eip712Conforms.InferFails: one direction only; a name can be used up by definitions that are not in the way.
- Eip712Create.CreateFails: likewise; Eip712Limits.SmallPayloadsSucceed gives a condition under which it cannot happen, and Eip712Crowded.OneTooMany shows its bound is tight.
- UsbWallet.AtMostOneBusy: the handshake of HealthCheck and the preference of waiting writers only hold threads back and are left out of this state machine; every real run is still a run of it.
- UsbProgress.NoDeadlock: about the locks; a Close stuck in the handshake of HealthCheck is not part of this state machine.
- HealthCheck.ReturnsExactly: sections under the state lock are one step, and that a Close which can return does return is not claimed.
- AnteChain.ValidateBasic: the rest of the basic validation is an answer given to the model.
- HubRefresh.RefreshedExactly: a wallet's status is read as it was when the refresh began; throttling and enumeration failures are left out.
- RewardSweep.Rewards: thresholds and gathered transactions are given; their computation, in floating point for the former, is left out.
- AnteChain.AnteHandle: the decorators of the SDK, the rest of basic validation and the decorators in between are answers given to the model.
- FeeChecker.CosmosTxFeeChecker: the min-gas-price fallback at height 0 and a nil MaxPriorityPrice are left out; coin amounts and fee parameters are never negative.
- The fee checker of Ethereum transactions, whose effective fee comes from go-ethereum.
- The other RPC methods, the JSON-RPC namespaces, websockets, configuration and commands.
- The x modules, keepers, precompiles and the EVM itself; a keeper's answer is an input here.
- Hashing, signatures, key derivation, HID input and output and user confirmation.
- types/dynamic_fee.pb.go and crypto/ethsecp256k1/keys.pb.go, near copies of the codec modelled here.
