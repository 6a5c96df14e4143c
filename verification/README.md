# HyperPax-OS: verified models of the node's core logic

A Dafny model of five components of a Cosmos/EVM node, with proofs of what they promise.

* **EIP-712 type inference** (`Eip712Names`, `Eip712Types`, `Eip712Naming`, `Eip712Message`,
  `Eip712Values`). A signing payload is flattened and compiled to named struct types in one shared, mutated map. Names that clash
  are resolved by first fit. `TypeMap` and `CreateEIP712Types` are the code; `Infer` is the function they
  compute; `HasType`/`Describes` is the judgement the code decides by, in which an array counts by its
  first element; `IsValue` says which values EIP-712 admits for a type, all elements included.
* **Codec of the index record** (`TxResultCodec`, `TxResultWire`). The writer fills a sized buffer
  from the back; the reader is a byte loop with truncating shifts, skipping of unknown fields and
  groups, and index arithmetic that wraps at 64 bits. `Field`/`Wire` is the message grammar of the
  Protocol Buffers Encoding guide (sections "Base 128 Varints", "Message Structure" and "Last One Wins").
* **Ethereum transaction index** (`IndexKeys`, `KvIndexer`, `IndexerCmd`, `IndexerService`,
  `IndexerSessions`). Two key spaces in one ordered byte store, the offline command that extends it, the
  live service with its two goroutines as a state machine of interleaved atomic steps, and its restarts
  on the store it left behind.
* **Allowances** (`Coins`, `EvmTypes`, `Erc20Ledger`, `Erc20Runs`, `Erc20Verdicts`, `Erc20Precompile`,
  `Ics20Allowance`, `Ics20Runs`, `Ics20Verdicts`). ERC-20 and ICS-20 allowances kept as sorted coin lists inside expiring grants, against a
  plain map of allowances as in EIP-20, section "Methods".
* **Topics and signature gas** (`AbiTopics`, `MultisigGas`).

`Numbers`, `Order` and `Wrappers` hold machine words, lexicographic order and the option type.
Machine integers are unbounded integers with their width, wrap-around and truncation written out.

## Modelling decisions

* Libraries outside the repository are small functions: coin lists (binary search, merge, subtraction),
  the authz keeper (a grant is live until its expiration has passed, saving one needs an expiration
  after the block time), the bank's send, the ordered key-value store with atomic batches, `%d`,
  validation and acceptance of ICS-20 transfer authorizations, and title casing of ASCII text, where a
  word ends at any character but letters, digits, the underscore and single `.`, `:` or `'`. JSON
  objects are maps, so a payload means the same whatever the order of its members; keys are plain names,
  on which a path lookup is a lookup by name.
* I/O outcomes are parameters: whether a batch is written, which heights can be loaded, what a fetch
  returns, which header arrives, what the events of a transaction parse to, whether an IBC transfer
  succeeds and which channels are open.
* A failed precompile call is rolled back by the transaction around it; `Commit` does that. Before the
  rollback, `Transfer` leaves the grant already reduced when the send after it fails, as the code does.
* The live service's cursor follows the height inside the results it gets; `HonestRun` says that this
  is the height asked for, and `CursorExactIffHonest` shows that nothing less will do.

Where code and documentation differ, the model follows the code:

* `index-eth-tx backward` on an empty index documents a start at the latest block; the loop starts one
  below it. `BackwardLeavesHead` shows that no backward run ever records the head, and
  `BackwardMissesHead` an empty index and a head with a message that is left out.
* The command's help text says that the live service starts from the latest indexed block so as not to
  create a gap; the service jumps forward over a backlog above 500000 and skips heights that fail.
  `StartExact` and `GapExact` say exactly when it keeps the promise, `RestartsGapFree` when it does over
  any number of restarts, and `BacklogSkipped` shows a run that does not.
* `approve` with amount 0 is refused when a grant exists without an allowance for the token, and a
  transfer of 0 is refused; EIP-20 accepts both. `ApproveSucceeds` and `TransferSucceeds` give the exact
  conditions, `ZeroApproveRefused` and `ZeroTransferRefused` the refusals.
* EIP-20 has the Approval event name the owner of the tokens. `approve`, `increaseAllowance` and
  `decreaseAllowance` name the precompile's own address instead; `transferFrom` names the owner.
  `ApprovalNamesOwner` gives the exact condition, `ApproveNamesPrecompile` an approval it fails for.

## Model

| member | source | states |
|---|---|---|
| `TxResultWire.UnmarshalIsFold` | types/indexer.pb.go:219-402 | Unmarshal succeeds on a byte string exactly when it is a concatenation of well-formed top-level fields, and then its result is their left-to-right fold: last value wins, unknown fields and nested groups have no effect |
| `TxResultWire.RoundTrip` | types/indexer.pb.go:109-402 | Unmarshal undoes Marshal on every record, negative 64- and 32-bit fields included |
| `TxResultWire.DecodeConcatenation` | types/indexer.pb.go:124-402 | two records written one after the other read back as the first overridden by the non-zero fields of the second |
| `TxResultWire.SkipExact` | types/indexer.pb.go:403-480 | skipIndexer stops inside the data at n exactly when the first n bytes are one field or one balanced group |
| `TxResultWire.SkippedIsField` | types/indexer.pb.go:403-480 | what a successful skip consumed is one well-formed field of at least one byte, with the tag that was read |
| `TxResultWire.EncodesEmpty` | types/indexer.pb.go:124-212 | only the all-zero record has an empty encoding |
| `TxResultWire.RecordBytes` | types/indexer.pb.go:124-182 | the encoding byte by byte: which member goes under which tag, in which order, zero left out and negative numbers in two's complement |
| `TxResultWire.AssignMeans` | types/indexer.pb.go:259-390 | what a varint of any size does: fields 1 to 7 in the order of the members, each value cut to its width, every other member kept |
| `TxResultWire.VarintExample` | types/indexer.pb.go:172-182 | 150 is sent as 96 01 |
| `TxResultWire.CutField` | types/indexer.pb.go:225-390 | a field cut off in its value, or of ten bytes and more, ends in the error of its own and leaves what was read in the record, the flag apart |
| `TxResultWire.BadTag` | types/indexer.pb.go:239-251 | the errors of a stray end of group, a field number that is not positive and a known field that is no varint |
| `TxResultWire.BadUnknown` | types/indexer.pb.go:384-474 | the errors of an unknown wire type, a payload cut off and a negative length |
| `TxResultWire.StrayEndOfGroup` | types/indexer.pb.go:462-465 | skipping an end of group without a group is an error |
| `TxResultWire.FieldNumberMeans` | types/indexer.pb.go:239-240 | the field number is the tag without its three low bits, cut to 32 bits and signed |
| `TxResultCodec.SizeOfVarintExact` | types/indexer.pb.go:172-182 | sovIndexer, a bit-length formula, is the number of bytes the varint loop emits |
| `TxResultCodec.ReadVarint` | types/indexer.pb.go:225-266 | the or-and-shift loop computes the base-128 value truncated to the field's width, also when it stops with an error |
| `TxResultCodec.SkipIndexer` | types/indexer.pb.go:403-480 | the skipper never reads out of range, ends, and consumes at least one byte, with index sums that wrap turned into errors |
| `TxResultCodec.EncodeVarint` | types/indexer.pb.go:172-182 | the varint is written ending exactly at the offset and nothing else in the buffer changes |
| `TxResultCodec.Message.Size` | types/indexer.pb.go:183-212 | Size is the length of the encoding |
| `TxResultCodec.Message.MarshalToSizedBuffer` | types/indexer.pb.go:124-170 | the backward writer leaves the encoding at the end of the buffer and the front untouched |
| `TxResultCodec.Message.Marshal` | types/indexer.pb.go:109-117 | the sized buffer is filled exactly to index 0 |
| `TxResultCodec.Message.Unmarshal` | types/indexer.pb.go:219-402 | on every byte string the loop ends in range with the specified record and error, partial values included |
| `Eip712Names.SortedJSONKeys` | ethereum/eip712/types.go:227-247 | whatever order the map is iterated in, the keys come out as the one descending listing; non-objects fail |
| `Eip712Names.ListingUnique` | ethereum/eip712/types.go:242-246 | the descending listing of a key set is unique |
| `Eip712Names.SanitizeTypedef` | ethereum/eip712/types.go:341-359 | the buffer loop computes the sanitized name: pieces between dots and underscores, each with the first letter of every word raised |
| `Eip712Names.SanitizeClean` | ethereum/eip712/types.go:341-359 | a sanitized name has no separator left, for every input |
| `Eip712Names.NestedKeySanitized` | ethereum/eip712/types.go:206-216 | sanitizing a generated key again is the identity, however its words are broken, so the reference a parent stores is the key that was bound |
| `Eip712Naming.SanitizePath` | ethereum/eip712/types.go:341-359 | the parts of a path are sanitized one by one and joined in order |
| `Eip712Naming.SanitizeRoot` | ethereum/eip712/types.go:347-350 | the root prefix becomes "Type" |
| `Eip712Naming.SanitizeWords` | ethereum/eip712/types.go:352-355 | words joined by an underscore are sanitized one by one and joined in order |
| `Eip712Naming.SanitizeWord` | ethereum/eip712/types.go:352-355 | a single word is title cased |
| `Eip712Naming.TitleFirst` | ethereum/eip712/types.go:343-355 | title casing raises the first letter and leaves the rest of the word alone |
| `Eip712Naming.TitleBreaks` | ethereum/eip712/types.go:343-355 | a break starts a new word |
| `Eip712Naming.WordExamples` | ethereum/eip712/types.go:343-355 | a hyphen ends a word, an apostrophe between letters does not |
| `Eip712Naming.SanitizeExample` | ethereum/eip712/types.go:337-341 | the example given with the code |
| `Eip712Naming.RootTypeNamed` | ethereum/eip712/types.go:118-131 | a message has a root type exactly when it has a type string that is not empty, and it is "Type" with what follows the last slash |
| `Eip712Naming.InferKeyNamed` | ethereum/eip712/types.go:146-317 | the key of an inferred type is its name with an index below a thousand |
| `Eip712Naming.PayloadNamed` | ethereum/eip712/types.go:80-140 | field 5 + j of Tx is "msg" with j, and its type is "Type", the last segment of the message's type string, and an index |
| `Eip712Naming.InferNamed` | ethereum/eip712/types.go:199-274 | in every inferred type a nested object has the type named by its path |
| `Eip712Naming.AddMsgsSucceeds` | ethereum/eip712/types.go:80-140 | a payload fails on a message without a type string, and otherwise only when some name has all its thousand indices taken |
| `Eip712Naming.PayloadSucceeds` | ethereum/eip712/types.go:38-140 | with fewer than 996 objects to type, a payload gets its types if and only if every message has a type string |
| `Eip712Types.PayloadTyped` | ethereum/eip712/types.go:38-90 | after a whole payload the predefined types are intact, no reference dangles, and each message is the Tx field of its index, described by its type and found again unchanged when inferred on the final map |
| `Eip712Types.InferSound` | ethereum/eip712/types.go:146-223 | the returned key names a struct type with exactly the representable fields of the object in descending order, each with a type its value has, recursively |
| `Eip712Types.InferStable` | ethereum/eip712/types.go:146-223 | inferring the same JSON again on any extension of the map returns the same key and leaves the map unchanged |
| `Eip712Types.InferExtends` | ethereum/eip712/types.go:146-223 | no definition is changed or removed, Tx is untouched, and the key returned is bound, generated and, for nested objects, its own sanitized form |
| `Eip712Types.InferScoped` | ethereum/eip712/types.go:146-223 | if every type reference in the map resolves, every reference still resolves afterwards |
| `Eip712Types.InferFailsExhausted` | ethereum/eip712/types.go:146-223 | inference of an object fails only when some name has all its thousand indices taken |
| `Eip712Types.InsertionFails` | ethereum/eip712/types.go:281-311 | insertion fails exactly when indices 0 to 999 are all bound to other definitions |
| `Eip712Types.FirstFitStable` | ethereum/eip712/types.go:281-311 | first fit finds its own earlier choice again in every later map, although generated names may coincide |
| `Eip712Types.AddMsgTyped` | ethereum/eip712/types.go:94-140 | one added message is appended to Tx under a type that describes it |
| `Eip712Types.DescribesKept` | ethereum/eip712/types.go:274-311 | a type that describes a value keeps describing it in every extension of the map |
| `Eip712Types.TypesAreEqual` | ethereum/eip712/types.go:323-335 | the field-by-field comparison is equality |
| `Eip712Types.TypeMap.AddTypesToRoot` | ethereum/eip712/types.go:281-311 | the loop reuses the first identical definition or takes the first free index |
| `Eip712Types.TypeMap.RecursivelyAddTypesToRoot` | ethereum/eip712/types.go:146-223 | the mutating recursion computes the map and key of the specification, on failure as well |
| `Eip712Types.TypeMap.AddMsgTypesToRoot` | ethereum/eip712/types.go:94-114 | a message that is no object, lacks a type string or exhausts a name is refused, any other is typed and appended |
| `Eip712Types.CreateEIP712Types` | ethereum/eip712/types.go:38-90 | the messages are added in order to the predefined types, and any failure fails the whole |
| `Eip712Message.FlattenPayloadMessages` | ethereum/eip712/message.go:72-94 | flattening succeeds exactly when "msgs" is an array of objects and no new field name is in use, and yields the flattened payload and count |
| `Eip712Message.FlattenSucceeds` | ethereum/eip712/message.go:97-130 | the exact condition in plain terms: an array "msgs" of objects and no field "msg0", "msg1", ... for them yet |
| `Eip712Message.FlattenedFields` | ethereum/eip712/message.go:72-150 | message j is at "msg" with j, "msgs" is gone, and every other field is as it was |
| `Eip712Message.WithMessagesPointwise` | ethereum/eip712/message.go:81-86 | message i sits at its own field and every other field is untouched |
| `Eip712Message.FieldNamesDistinct` | ethereum/eip712/message.go:135-139 | generated field names differ from each other and from "msgs" |
| `Eip712Message.UnflattenRestores` | ethereum/eip712/message.go:72-150 | the original payload is recovered from the flattened one and the count |
| `Eip712Message.FlattenInjective` | ethereum/eip712/message.go:72-150 | payloads with the same flattening are equal |
| `Eip712Message.MessagesDescribed` | ethereum/eip712/message.go:28-51 | end to end, message j of the original payload is described by the type of Tx field 5 + j |
| `Eip712Values.ValueExact` | ethereum/eip712/types.go:146-223 | the EIP-712 values of an inferred type are exactly the values built like the one it was inferred for, element by element and name by name, whose numbers are integers of 64 bits |
| `Eip712Values.MessageIsValue` | ethereum/eip712/types.go:38-223 | message j of a payload is an EIP-712 value of the type signed for it if and only if its numbers are integers of 64 bits, it holds no null and no array in an array, and the elements of each array are alike |
| `Eip712Values.PayloadIsValue` | ethereum/eip712/types.go:38-90 | a whole payload is an EIP-712 value of the Tx type signed for it if and only if it has exactly the header fields of a Cosmos sign document, a fee in coins, and messages built like themselves with numbers that fit |
| `Eip712Values.PredefinedOrder` | ethereum/eip712/types.go:39-78 | the members of the predefined types in the order EIP-712 encodes them |
| `Eip712Values.AddMsgsProper` | ethereum/eip712/types.go:281-317 | no generated name can be taken for an array or a basic type |
| `Eip712Values.FractionIsNoValue` | ethereum/eip712/types.go:364-378 | a fraction is typed int64 and is a value of no type |
| `Eip712Values.MixedArrayIsNoValue` | ethereum/eip712/types.go:168-188 | an array that goes on with another kind is typed by its head and is a value of no type |
| `IndexKeys.IndexKeyOrder` | indexer/kv_indexer.go:168-173 | byte order of index keys is the numeric order of (height, index) |
| `IndexKeys.KeysDistinct` | indexer/kv_indexer.go:168-173 | index keys are equal only for equal height and index, signed values included |
| `IndexKeys.HashKeysApart` | indexer/kv_indexer.go:163-173 | the two key spaces are disjoint and hash keys determine the hash |
| `IndexKeys.IndexRange` | indexer/kv_indexer.go:176-199 | the iterated range is exactly the keys that begin with the index prefix |
| `IndexKeys.HeightOfKey` | indexer/kv_indexer.go:226-232 | the height parsed from a key is the one it was built from |
| `IndexKeys.KeyBytes` | indexer/kv_indexer.go:163-173 | a hash key is the byte 1 and the hash, an index key the byte 2 with height and index in eight bytes each |
| `KvIndexer.EntriesExact` | indexer/kv_indexer.go:51-123 | IndexBlock lists exactly the accepted messages in block order, with gap-free eth indices from 0, gas summed modulo 2^64 within the transaction, and the right positions, hashes and flags |
| `KvIndexer.EntriesMean` | indexer/kv_indexer.go:51-123 | in terms of the block alone: exactly the messages of decoded Ethereum transactions that succeeded or failed as expected have a record, an executed one with the gas and flag of its event, one of a failed transaction marked failed with its gas limit, gas added up over the transaction so far |
| `KvIndexer.IndexKeepsAgreement` | indexer/kv_indexer.go:51-123 | indexing a block of the chain extends the agreement of store and chain by that height |
| `KvIndexer.RunAgrees` | indexer/kv_indexer.go:51-123 | any sequence of IndexBlock calls, in any order and with repetitions, ends in agreement for its set of heights |
| `KvIndexer.AgreementUnique` | indexer/kv_indexer.go:214-224 | the agreed store is determined by chain and heights |
| `KvIndexer.ReindexIdempotent` | indexer/kv_indexer.go:51-123 | indexing an indexed block again changes nothing |
| `KvIndexer.IndexAgreement` | indexer/kv_indexer.go:151-161 | GetByBlockAndIndex(h, k) is the k-th accepted message of an indexed block and not found for every other pair; only an all-zero record, possible at height 0 alone, is missed |
| `KvIndexer.HashAgreement` | indexer/kv_indexer.go:135-149 | GetByTxHash finds exactly the records of indexed messages and never a corrupt one |
| `KvIndexer.AgreementExact` | indexer/kv_indexer.go:51-123 | a run over the blocks of a chain ends in agreement with all of them if and only if no two accepted messages share a hash |
| `KvIndexer.HashLookup` | indexer/kv_indexer.go:135-149 | after any run over any blocks, GetByTxHash answers with the record of the last entry written with the hash, and with nothing when there is none |
| `KvIndexer.IndexLookup` | indexer/kv_indexer.go:151-161 | GetByBlockAndIndex(h, k) answers with the last entry that shares the hash of message k, and is right if and only if that is message k itself |
| `KvIndexer.IndexLookupAbsent` | indexer/kv_indexer.go:151-161 | every other height and index is not found, repeated hashes or not |
| `KvIndexer.BytesToHashAligned` | indexer/kv_indexer.go:160 | the stored bytes are read as a hash aligned at their end |
| `KvIndexer.RepeatedHashDisagrees` | indexer/kv_indexer.go:214-224 | one hash in two blocks: asked for message 0 of block 1, the index answers with the record of block 2 |
| `KvIndexer.RunKeepsAgreement` | indexer/kv_indexer.go:51-123 | from any agreed store, a sequence of IndexBlock calls adds its set of heights to the agreement |
| `KvIndexer.RunKeepsTable` | indexer/kv_indexer.go:51-123 | the index table lists exactly the messages of the heights indexed, whether hashes repeat or not |
| `KvIndexer.LastKeyIsMax` | indexer/kv_indexer.go:175-186 | the greatest index key carries the greatest height with a stored message, whether hashes repeat or not |
| `KvIndexer.FirstKeyIsMin` | indexer/kv_indexer.go:188-199 | the least index key carries the least such height |
| `KvIndexer.NoKeyNothingRecorded` | indexer/kv_indexer.go:182-184 | there is no index key exactly when no message is stored |
| `KvIndexer.KVIndexer.IndexBlock` | indexer/kv_indexer.go:51-123 | the nested loops and the atomic batch store exactly the entries of the block, or nothing when the write fails |
| `KvIndexer.KVIndexer.GetByTxHash` | indexer/kv_indexer.go:135-149 | the lookup by hash, decoding included |
| `KvIndexer.KVIndexer.GetByBlockAndIndex` | indexer/kv_indexer.go:151-161 | the lookup through the index table |
| `KvIndexer.KVIndexer.LastIndexedBlock` | indexer/kv_indexer.go:175-186 | -1 without an index key, else the height in the greatest one |
| `KvIndexer.KVIndexer.FirstIndexedBlock` | indexer/kv_indexer.go:188-199 | -1 without an index key, else the height in the least one |
| `IndexerCmd.Backward` | server/indexer_cmd.go:85-98 | on any chain, the run succeeds if and only if every height below the first recorded one (or the head) can be loaded and written; otherwise it stops at the first that cannot, having indexed exactly the heights between, in descending order; the index stays gap-free either way |
| `IndexerCmd.BackwardLeavesHead` | server/indexer_cmd.go:85-98 | after a backward run the head is recorded if and only if it was before |
| `IndexerCmd.BackwardMissesHead` | server/indexer_cmd.go:90-98 | from an empty index a backward run leaves out a head that can be indexed and has a message |
| `IndexerCmd.Forward` | server/indexer_cmd.go:99-112 | the same for the run above the last recorded height |
| `IndexerCmd.BackwardGapFree` | server/indexer_cmd.go:94-98 | extending downwards from the first recorded height keeps every eth-bearing height between recorded ones recorded |
| `IndexerCmd.ForwardGapFree` | server/indexer_cmd.go:108-112 | likewise upwards from the last recorded height |
| `IndexerCmd.IndexHeight` | server/indexer_cmd.go:68-82 | a block that cannot be loaded or written leaves the store as it was, of any other exactly its entries are stored |
| `IndexerService.NoLostWakeUp` | server/indexer_service.go:60-118 | in every reachable state, when the indexer waits behind the head and the header goroutine is between events, the channel holds a token |
| `IndexerService.WorkResumes` | server/indexer_service.go:74-119 | from a waiting state behind the head the loop is entered at the next height without the timeout |
| `IndexerService.HeadExact` | server/indexer_service.go:74-87 | in every run the head is the greatest of the head at start-up and the heights announced |
| `IndexerService.AttemptsKnown` | server/indexer_service.go:119-137 | no run attempts a height above the head |
| `IndexerService.WakesBounded` | server/indexer_service.go:74-118 | the indexer is woken at most once for every time the head was raised, signals on their way included |
| `IndexerService.CatchesUp` | server/indexer_service.go:110-138 | from any state of an honest run the loop's own steps attempt every height up to the head, whatever the outcomes, and then wait there |
| `IndexerService.LiveCursorSafety` | server/indexer_service.go:89-137 | in every run the attempted heights increase strictly and are those from start + 1 to the cursor, each once; the heights stored are exactly those whose own attempt did not fail; the start is at most 500000 below the head seen at start-up |
| `IndexerService.StartExact` | server/indexer_service.go:89-109 | in every run the persisted cursor is kept if and only if the head it was compared with is at most 500000 above it; otherwise the start is the head read at the jump less 500000, beyond the cursor; an empty index starts at the head |
| `IndexerService.StartRecorded` | server/indexer_service.go:74-109 | the cursor and heads these results speak of are those of the run's own actions, and the head is never below a height announced |
| `IndexerService.GapExact` | server/indexer_service.go:89-137 | with a persisted cursor, an honest run has stored every height from it to the cursor reached if and only if it did not jump and no attempt failed |
| `IndexerService.BacklogSkipped` | server/indexer_service.go:95-109 | at a backlog of 500001 the block after the persisted cursor is skipped |
| `IndexerSessions.StoredIsIndexed` | server/indexer_service.go:132-137 | the heights the service counts as stored are those written to the key-value store |
| `IndexerSessions.CursorIsLast` | server/indexer_service.go:89-92 | the cursor a session reads from the store is the greatest height with a recorded message, or -1 without one |
| `IndexerSessions.SessionGapFree` | server/indexer_service.go:89-137 | on a gap-free store an honest session, stopped anywhere, leaves the index gap-free if and only if it passed by no height with a message, by the jump or by a failed attempt, between recorded ones |
| `IndexerSessions.RestartsGapFree` | server/indexer_service.go:89-137 | over any number of restarts the index is gap-free after every session if and only if no session leaves such a gap |
| `IndexerService.CursorExactIffHonest` | server/indexer_service.go:120-137 | the cursor marks exactly the heights attempted once in every state of a run if and only if every result that arrived carried the height asked for |
| `IndexerService.StaleResultRepeats` | server/indexer_service.go:120-137 | a run in which results of an older height make the loop index the same height twice |
| `IndexerService.StepKeepsCursor` | server/indexer_service.go:89-137 | every step of either goroutine keeps the cursor invariant |
| `EvmTypes.SafeAddExact` | precompiles/common/types.go:112-117 | the bit-length test reports exactly the sums outside the 256-bit range |
| `Coins.FindExact` | precompiles/erc20/approve.go:259-262 | on a sorted list the binary search finds what a scan would |
| `Erc20Ledger.UpdateOrAddSets` | precompiles/erc20/types.go:144-160 | one amount is set, all others kept, and the list stays sorted, positive and non-empty |
| `Erc20Ledger.ApproveRefines` | precompiles/erc20/approve.go:36-92 | a successful approve sets its own (owner, spender, denom) entry, changes no other, and keeps the spend limits valid |
| `Erc20Ledger.IncreaseRefines` | precompiles/erc20/approve.go:103-151 | a successful increase adds to its own entry alone and emits the stored value |
| `Erc20Ledger.DecreaseRefines` | precompiles/erc20/approve.go:165-222 | a successful decrease subtracts from its own entry alone, never below zero |
| `Erc20Ledger.RemoveSets` | precompiles/erc20/approve.go:250-278 | removing a spend limit zeroes one allowance whether the grant is rewritten or deleted |
| `Erc20Ledger.TransferRefines` | precompiles/erc20/tx.go:70-135 | a transfer on behalf of another takes the amount off the caller's allowance, a direct one touches none, and exactly the two balances move |
| `Erc20Ledger.LiveGrantMeansAllowance` | precompiles/erc20/query.go:241-263 | a live spending grant exists exactly when some allowance is positive, and allowances are 256-bit |
| `Erc20Runs.ApproveSucceeds` | precompiles/erc20/approve.go:51-84 | the exact condition, over all inputs, under which approve succeeds |
| `Erc20Runs.IncreaseSucceeds` | precompiles/erc20/approve.go:118-143 | the exact condition for increaseAllowance |
| `Erc20Runs.DecreaseSucceeds` | precompiles/erc20/approve.go:180-214 | the exact condition for decreaseAllowance |
| `Erc20Runs.TransferSucceeds` | precompiles/erc20/tx.go:78-109 | the exact condition for transfer and transferFrom |
| `Erc20Runs.CallRefines` | precompiles/erc20/approve.go:26-334 | every successful call is the EIP-20 update of one entry of the allowance map |
| `Erc20Verdicts.CallVerdict` | precompiles/erc20/approve.go:36-334 | every call ends, over all inputs, in success or in the very error predicted from allowances, grants and bank rules |
| `Erc20Verdicts.NewAllowanceLives` | precompiles/erc20/approve.go:224-239 | an allowance newly made by approve or increaseAllowance is worth its amount for the approval duration, to the last moment, and nothing afterwards |
| `Erc20Verdicts.TermsKept` | precompiles/erc20/approve.go:224-278 | every other call, transferFrom included, keeps the expiration and the allow list of a grant that stays |
| `Erc20Verdicts.OtherGrantsKept` | precompiles/erc20/approve.go:224-278 | the grants of other pairs are left alone, live or not |
| `Erc20Verdicts.FailedTransferLeaves` | precompiles/erc20/tx.go:92-112 | before the rollback, a transfer that fails in the bank has already reduced the allowance, any other failed one has changed nothing |
| `Erc20Runs.RunKeepsOk` | precompiles/erc20/approve.go:26-334 | over every run with moving time and many tokens, spend limits stay non-empty, strictly sorted, positive and below 2^256 |
| `Erc20Runs.SpendingLedger` | precompiles/erc20/tx.go:92-134 | over every run, spent + lowered + expired + current allowance = initial allowance + raised, and the allowance stays in the 256-bit range |
| `Erc20Runs.SupplyConserved` | precompiles/erc20/tx.go:92-109 | over every run the total balance of every denomination is conserved |
| `Erc20Runs.ApprovalIsStored` | precompiles/erc20/tx.go:115-134 | the value of the Approval event for a spender other than the owner is the stored allowance, exactly unless a negative amount was approved |
| `Erc20Runs.ApprovalNamesOwner` | precompiles/erc20/approve.go:86-219 | the Approval event names the pair whose allowance the call works on if and only if the call is transferFrom or the caller is the precompile; otherwise the allowance of the pair it names did not change |
| `Erc20Runs.ApproveNamesPrecompile` | precompiles/erc20/approve.go:86-89 | an approval whose event speaks of the precompile, which has granted nothing |
| `Erc20Runs.ZeroApproveRefused` | precompiles/erc20/approve.go:253-264 | with a grant for another token alone, approving zero is refused |
| `Erc20Runs.ZeroTransferRefused` | precompiles/erc20/tx.go:78-84 | a transfer of zero is refused and changes nothing |
| `Erc20Precompile.UpdateOrAddCoin` | precompiles/erc20/types.go:149-160 | the in-place loop replaces the first coin of the denomination or merges a new one |
| `Erc20Precompile.Precompile.ApproveCall` | precompiles/erc20/approve.go:36-92 | the call edits the store as specified, error by error |
| `Erc20Precompile.Precompile.IncreaseAllowanceCall` | precompiles/erc20/approve.go:103-151 | likewise for increaseAllowance |
| `Erc20Precompile.Precompile.DecreaseAllowanceCall` | precompiles/erc20/approve.go:165-222 | likewise for decreaseAllowance |
| `Erc20Precompile.Precompile.RemoveSpendLimitOrDelete` | precompiles/erc20/approve.go:253-278 | likewise for its removal step |
| `Erc20Precompile.Precompile.TransferCall` | precompiles/erc20/tx.go:70-135 | likewise for transfer and transferFrom |
| `Erc20Precompile.Precompile.AllowanceQuery` | precompiles/erc20/query.go:187-215 | the query answers the abstract allowance, and the maximum to an owner asking for itself |
| `Ics20Allowance.ReduceInPlace` | precompiles/ics20/approve_common.go:191-208 | deleting from the backing array under the running range loop leaves exactly the old list with the target reduced, removed at zero |
| `Ics20Allowance.IncreaseAdjusts` | precompiles/ics20/approve_common.go:127-144 | an increase changes one coin of one allocation; other coins, allocations, grants and the order stay |
| `Ics20Allowance.DecreaseAdjusts` | precompiles/ics20/approve_common.go:180-211 | the same for a decrease, which never exceeds the limit |
| `Ics20Allowance.AdjustSetsOnly` | precompiles/ics20/types.go:330-349 | either call moves its own (granter, grantee, port, channel, denom) allowance and no other |
| `Ics20Allowance.IncreaseThenDecrease` | precompiles/ics20/approve_common.go:106-224 | an increase can be taken back, and that restores the ledger |
| `Ics20Allowance.DecreaseThenIncrease` | precompiles/ics20/approve_common.go:106-224 | a decrease can be taken back exactly when it did not use up the allowance |
| `Ics20Allowance.Ics20Precompile.ApproveGrant` | precompiles/ics20/approve_common.go:34-55 | the loop refuses an allocation whose channel is not open, any valid authorization is stored |
| `Ics20Allowance.Ics20Precompile.RevokeGrant` | precompiles/ics20/approve_common.go:72-93 | a live transfer grant is deleted, anything else is an error |
| `Ics20Allowance.Ics20Precompile.CheckAllocationExists` | precompiles/ics20/types.go:330-349 | the loop finds the first allocation of the port and channel, if it knows the denomination |
| `Ics20Allowance.Ics20Precompile.Increase` | precompiles/ics20/approve_common.go:106-145 | the call edits the grant as specified, error by error |
| `Ics20Allowance.Ics20Precompile.Decrease` | precompiles/ics20/approve_common.go:160-211 | likewise, through the in-place loop |
| `Ics20Runs.AcceptReduces` | precompiles/ics20/approve_common.go:227-248 | an accepted transfer stays within its limit and reduces that limit alone, also when a used-up allocation is dropped; only an unlimited one is left as it is |
| `Ics20Runs.CallRefines` | precompiles/ics20/approve_common.go:34-269 | every successful approve, revoke, increase, decrease and transfer keeps the store valid and does its own update to every allowance |
| `Ics20Verdicts.CallVerdict` | precompiles/ics20/approve_common.go:34-269 | every call ends, over all inputs, in success or in the very error predicted: grant, allocation, limit, expiration, open channels, sender and origin, allow list |
| `Ics20Verdicts.RevokeVerdict` | precompiles/ics20/approve_common.go:72-93 | a grant is revoked if and only if it is live and for transfers, and then it alone is gone |
| `Ics20Verdicts.AcceptVerdict` | precompiles/ics20/approve_common.go:227-248 | when a transfer is accepted, and when it uses up the grant |
| `Ics20Verdicts.ApprovalLives` | precompiles/ics20/approve_common.go:52-55 | an approval is worth its spend limits for the approval duration, to the last moment, and nothing afterwards |
| `Ics20Verdicts.TermsKept` | precompiles/ics20/approve_common.go:106-269 | every other call keeps expiration and allow lists, and the grants of other pairs |
| `Ics20Runs.TransferSets` | precompiles/ics20/types.go:387-417 | a transfer by another caller takes its amount, within the allowance, off the caller's own allowance and no other |
| `Ics20Runs.RunKeepsOk` | precompiles/ics20/approve_common.go:34-269 | over every run with moving time, spend limits stay strictly sorted, positive and below 2^256, and no channel occurs twice in a grant |
| `Ics20Runs.RunFromEmpty` | precompiles/ics20/approve_common.go:34-269 | so the store is valid throughout every run that begins without grants |
| `Ics20Runs.SpendingLedger` | precompiles/ics20/approve_common.go:34-269 | over every run, spent + lowered + expired + current allowance = initial allowance + raised, for every granter, grantee, port, channel and denomination; all that was transferred for the granter is either spent or was moved under a limit of 2^256 - 1, which is counted apart |
| `AbiTopics.IntTopicExact` | precompiles/common/abi.go:107-119 | a topic of a given byte width reads back as its integer in 256-bit two's complement exactly when the integer needs no more bytes |
| `AbiTopics.SignedTopicsAgree` | precompiles/common/abi.go:39-46 | topics of signed values of any widths are equal exactly when the values are |
| `AbiTopics.SignedMeetsUnsigned` | precompiles/common/abi.go:32-58 | non-negative signed values share the topic of the unsigned and big-integer cases; a negative big integer does not, because its absolute value is copied |
| `AbiTopics.TopicsAgree` | precompiles/common/abi.go:24-58 | topics of any two integer, boolean or address arguments are equal exactly when the numbers they stand for are |
| `AbiTopics.TopicSelects` | precompiles/common/abi.go:29-58 | a topic of an unsigned, boolean or address argument selects exactly that value |
| `AbiTopics.GenIntType` | precompiles/common/abi.go:107-119 | the array loop writes the sign-filled big-endian bytes |
| `MultisigGas.ConsumeExact` | app/ante/sigverify.go:38-91 | verification succeeds exactly when every flagged leaf, the k-th signature paired with the key of the k-th set bit, is an Ethereum key and the meter allows it, and then consumes 21000 per flagged leaf |
| `MultisigGas.ConsumeIsMetered` | app/ante/sigverify.go:38-91 | every verification, failing ones included, charges 21000 per Ethereum leaf and the given cost per Ed25519 leaf in order, until it ends or the meter runs out |
| `MultisigGas.SigVerificationGasConsumer` | app/ante/sigverify.go:38-64 | the key-type switch charges the meter as specified and ends on every nesting |
| `MultisigGas.ConsumeMultisignatureVerificationGas` | app/ante/sigverify.go:66-91 | the bit loop with its signature index charges the meter as specified |

## Left out

- ABI packing, event logs beyond the Approval event, error strings, logging, telemetry: no deep property.
- ICS-20 convertToAllocation, denomination traces and the IBC transfer itself: a copy, queries, and code outside the repository.
- ERC-20 metadata queries (name, symbol, decimals, totalSupply, balanceOf): single lookups.
- Parsing of transaction events and decoding of transactions: their results are inputs; a transaction flagged as Ethereum whose message has another type makes the code panic and is not an input of the model.
- JSON keys with path syntax, and the text order of JSON members: objects are maps with plain keys.
- Eip712Names.SanitizeTypedef: letters outside ASCII are neither raised nor seen as breaks, because the Unicode tables are outside the repository.
- MakeTopic for hashes, strings, byte slices and byte arrays: copies and Keccak-256.
- The merge of coin lists: adds one coin at a time, as all callers here do.
- KvIndexer.IndexAgreement: assumes at most 2^31 accepted messages in a block, where the int32 index would wrap, and so do all results about index keys, from `IndexLookup` and `LastKeyIsMax` to `RestartsGapFree`. It speaks of stores in agreement; repeated hashes are the subject of `IndexLookup`.
- KvIndexer.HashAgreement: speaks of stores in agreement; repeated hashes are the subject of `HashLookup`.
- IndexerService.LiveCursorSafety: assumes that results carry the height asked for, which the code does not check and which is necessary, see `CursorExactIffHonest`.
- The data race on latestBlock: each read and write of it is one atomic step.
- The legacy EIP-712 encoder, RPC servers, staking, distribution and scheduler precompiles, application wiring: outside the modelled core.
