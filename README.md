# Teku: key-value store contract, execution-engine stub, Eth1 head tracker

This project models three parts of the Teku beacon node and proves
properties of the models.

**The typed key-value store** is what the chain storage is built on. It is
described by the behaviour its LevelDB test suite pins down:
- Columns and variables carry serializers.
- Transactions stage puts (typed or raw) and apply them together on commit.
- There are point reads (typed and raw) and ordered range streams (typed and raw).
- There is a floor lookup: the entry with the greatest key at most a given key.

The committed state is one map from store keys to value bytes. Keys within
a column are ordered byte-lexicographically, with bytes compared unsigned.

The modules are:
- `KvStore`: the accessor and transaction classes.
- `Serializers`: the 4-byte int and 8-byte UInt64 big-endian serializers.
- `KvStoreOrdering`: what byte order means for typed keys. A stream over a
  UInt64 column, or over an int column with non-negative keys, is the numeric
  range in numeric order, and the floor is the numeric predecessor.
- `KvStoreScenarios`: every test of the suite as a method.

**The execution-engine channel stub** stands in for an execution client.

The class `ExecutionEngineChannelStub` keeps the stub's fields and updates
them in place. With transition emulation, the first use after Bellatrix
activation prepares a terminal proof-of-work block and its parent. The
terminal block is then reached in one of two ways:
- by terminal total difficulty (TTD), 10 seconds after activation, with the
  terminal block hashed 1;
- by a configured terminal block hash (TBH), when that hash is asked for.

The stub also:
- hands out payload ids for fork choice updates and caches the head and
  attributes they were requested for;
- builds payloads from the cache;
- unblinds the payload it last handed out as a header.

**The block-based Eth1 head tracker** polls the Eth1 provider. It keeps the
number of the block `followDistance` below the newest head it has seen, and
tells subscribers each time that number advances.

The update rule is a pure function, `Advance`. The tracker class keeps its
fields equal to folds of that rule over the head numbers it has processed.
The tracked head is proved to be the largest follow-distance candidate of
all heads seen, and the values announced are proved to strictly increase.

Time (`now`), the provider's answer to a poll, and the stub's random block
hash are parameters of the calls that use them. Hashes are 32-byte values
read as numbers.

**Where the test names and the assertions disagree, the model follows the
assertions.** The two tests at `LevelDbInstanceTest.java:316-339` are named
"...shouldBeEmptyWhenKeyAfterLast...", but both assert the entry (4, 4).
`KvStoreScenarios.FloorAfterLastKeyInColumn` and
`KvStoreScenarios.FloorAfterLastKeyInStore` prove that entry.

**The store does not check column declarations.** It is opened with columns
1–3 only, yet the tests write and read column 4. In the model a column is
just an id.

## Model

Source paths are relative to the repository root.

| member | source | states |
|---|---|---|
| KvStore.KvStoreAccessor.constructor | storage/src/test/java/tech/pegasys/teku/storage/server/leveldb/LevelDbInstanceTest.java:74-82 | A freshly created store holds nothing. |
| KvStore.KvStoreAccessor.Get | storage/src/test/java/tech/pegasys/teku/storage/server/leveldb/LevelDbInstanceTest.java:99-107 | An absent key reads empty and only an absent key does. A stored value that decodes reads as that value. A fault is returned exactly when the stored bytes do not decode. |
| KvStore.KvStoreAccessor.GetVariable | storage/src/test/java/tech/pegasys/teku/storage/server/leveldb/LevelDbInstanceTest.java:110-123 | A variable never written reads empty. One whose bytes decode reads as the value. Otherwise it reads as a fault. Each case is an exact condition. |
| KvStore.KvStoreAccessor.GetVariableRaw | storage/src/test/java/tech/pegasys/teku/storage/server/leveldb/LevelDbInstanceTest.java:250 | A variable's raw read is present exactly when it is stored, and then it is the stored bytes. |
| KvStore.KvStoreAccessor.StreamRaw | storage/src/test/java/tech/pegasys/teku/storage/server/leveldb/LevelDbInstanceTest.java:253-265 | The raw stream is the column's entries in ascending key order. With OrderedEntriesExact: each stored entry exactly once, with its stored value, and nothing else. |
| KvStore.KvStoreAccessor.Stream | storage/src/test/java/tech/pegasys/teku/storage/server/leveldb/LevelDbInstanceTest.java:125-145 | The stream is the decoded entries whose serialized keys lie in from..to (both inclusive), in ascending key order. It fails if any of them does not decode. |
| KvStore.KvStoreAccessor.GetFloorEntry | storage/src/test/java/tech/pegasys/teku/storage/server/leveldb/LevelDbInstanceTest.java:267-339 | The answer is empty exactly when no key of the column is at most the given key. Otherwise it is the decoded entry of the greatest such key, or a fault when that entry does not decode. |
| KvStore.KvStoreAccessor.StartTransaction | storage/src/test/java/tech/pegasys/teku/storage/server/leveldb/LevelDbInstanceTest.java:91 | Returns a new open transaction on this store with nothing staged. |
| KvStore.KvStoreAccessor.Update | storage/src/test/java/tech/pegasys/teku/storage/server/leveldb/LevelDbInstanceTest.java:341-346 | The update helper (start, stage in order, commit, close) leaves the old contents overwritten by the batch staged in order. |
| KvStore.KvStoreTransaction.constructor | storage/src/test/java/tech/pegasys/teku/storage/server/leveldb/LevelDbInstanceTest.java:91 | A new transaction is open, on its store, with nothing staged. |
| KvStore.KvStoreTransaction.Apply | storage/src/test/java/tech/pegasys/teku/storage/server/leveldb/LevelDbInstanceTest.java:92-95 | An open transaction stages the write over any earlier one to the same key. One no longer open refuses it and changes nothing. |
| KvStore.KvStoreTransaction.Put | storage/src/test/java/tech/pegasys/teku/storage/server/leveldb/LevelDbInstanceTest.java:92-95 | Stages the serialized value under the column's serialized key, if the transaction is open. |
| KvStore.KvStoreTransaction.PutVariable | storage/src/test/java/tech/pegasys/teku/storage/server/leveldb/LevelDbInstanceTest.java:115-119 | Stages the serialized value under the variable, if the transaction is open. |
| KvStore.KvStoreTransaction.PutVariableRaw | storage/src/test/java/tech/pegasys/teku/storage/server/leveldb/LevelDbInstanceTest.java:248 | Stages the given bytes under the variable, if the transaction is open. |
| KvStore.KvStoreTransaction.Commit | storage/src/test/java/tech/pegasys/teku/storage/server/leveldb/LevelDbInstanceTest.java:96 | An open transaction applies all staged writes to the store at once. Otherwise neither it nor the store changes. |
| KvStore.KvStoreTransaction.Close | storage/src/test/java/tech/pegasys/teku/storage/server/leveldb/LevelDbInstanceTest.java:91-97 | Closing an open transaction discards what it staged. Closing a committed or closed one changes nothing. |
| KvStore.DecodeEntries | storage/src/test/java/tech/pegasys/teku/storage/server/leveldb/LevelDbInstanceTest.java:134-144 | Decoding a scan succeeds exactly when every entry decodes. The results then correspond entry by entry, in order. |
| KvStore.SortedKeys | storage/src/test/java/tech/pegasys/teku/storage/server/leveldb/LevelDbInstanceTest.java:134-144 | The loop that repeatedly takes the least remaining key yields exactly the keys in ascending byte order. |
| KvStore.AscendingIsSortedEnumeration | storage/src/test/java/tech/pegasys/teku/storage/server/leveldb/LevelDbInstanceTest.java:134-144 | The ascending listing of a key set has the set's size and exactly its elements, strictly ascending. |
| KvStore.OrderedEntriesExact | storage/src/test/java/tech/pegasys/teku/storage/server/leveldb/LevelDbInstanceTest.java:134-144 | A scan over a key set yields each key's stored entry once, with its value, strictly ascending, and nothing else. |
| KvStore.LastWriteWins | storage/src/test/java/tech/pegasys/teku/storage/server/leveldb/LevelDbInstanceTest.java:341-346 | Within a batch, the last write to a key decides its value. |
| KvStore.UnwrittenKeyKept | storage/src/test/java/tech/pegasys/teku/storage/server/leveldb/LevelDbInstanceTest.java:341-346 | A key no write of the batch touches keeps its presence and its value. |
| KvStore.ReadsLastCommittedPut | storage/src/test/java/tech/pegasys/teku/storage/server/leveldb/LevelDbInstanceTest.java:89-100 | After a commit, a typed read returns the value of the last put to that key, for a serializer that round-trips. |
| KvStore.UnwrittenKeyReadsAsBefore | storage/src/test/java/tech/pegasys/teku/storage/server/leveldb/LevelDbInstanceTest.java:101-107 | After a commit, a key no write touched is present and valued as before. |
| KvStore.ReadsLastCommittedPutRaw | storage/src/test/java/tech/pegasys/teku/storage/server/leveldb/LevelDbInstanceTest.java:258-263 | After a commit, a typed column put is stored as its serialized value: the raw read of that key gives exactly those bytes, which is what the raw stream returns for it. |
| KvStore.ReadsLastCommittedVariablePut | storage/src/test/java/tech/pegasys/teku/storage/server/leveldb/LevelDbInstanceTest.java:110-123 | After a commit, a variable reads typed as the value of its last put (for a serializer that round-trips) and raw as that value's serialized bytes. |
| KvStore.ReadsLastCommittedVariableRawPut | storage/src/test/java/tech/pegasys/teku/storage/server/leveldb/LevelDbInstanceTest.java:243-251 | After a commit, a variable last written with raw bytes reads raw as exactly those bytes, and typed as what they decode to, or as a fault when they do not decode. |
| Serializers.UInt64RoundTrip | storage/src/test/java/tech/pegasys/teku/storage/server/leveldb/LevelDbInstanceTest.java:253-260 | Deserializing a serialized UInt64 gives it back, for every UInt64. |
| Serializers.UInt64Canonical | storage/src/test/java/tech/pegasys/teku/storage/server/leveldb/LevelDbInstanceTest.java:243-251 | Every 8-byte string decodes, and is the encoding of what it decodes to. |
| Serializers.UInt64OrderPreserving | storage/src/test/java/tech/pegasys/teku/storage/server/leveldb/LevelDbInstanceTest.java:220-241 | For UInt64s, x <= y exactly when their encodings are in unsigned byte order, and x == y exactly when the encodings are equal. |
| Serializers.UInt64ZeroIsEightZeroBytes | storage/src/test/java/tech/pegasys/teku/storage/server/leveldb/LevelDbInstanceTest.java:261-263 | UInt64 zero is stored as eight zero bytes. |
| Serializers.SignedComparisonMisorders | storage/src/test/java/tech/pegasys/teku/storage/server/leveldb/LevelDbInstanceTest.java:229-231 | 639 and 640 lie in the scanned range. Their encodings are in unsigned order, but a comparison of signed bytes would put 640 first. |
| Serializers.DecodeBEOrder | storage/src/test/java/tech/pegasys/teku/storage/server/leveldb/LevelDbInstanceTest.java:220-241 | For byte strings of one width, unsigned byte order is the numeric order of their big-endian values, and equal values mean equal strings. |
| Serializers.DecodeEncode | storage/src/test/java/tech/pegasys/teku/storage/server/leveldb/LevelDbInstanceTest.java:351-358 | Reading back a big-endian encoding gives the encoded number. |
| Serializers.EncodeDecode | storage/src/test/java/tech/pegasys/teku/storage/server/leveldb/LevelDbInstanceTest.java:351-358 | Encoding the value of a byte string at its own width gives the string back. |
| Serializers.IntRoundTrip | storage/src/test/java/tech/pegasys/teku/storage/server/leveldb/LevelDbInstanceTest.java:348-359 | The int serializer round-trips every 32-bit int, negative ones included. |
| Serializers.IntCanonical | storage/src/test/java/tech/pegasys/teku/storage/server/leveldb/LevelDbInstanceTest.java:348-359 | Every 4-byte string is the encoding of the int it decodes to. That int is non-negative exactly when the unsigned value is below 2^31, and then the two are equal. |
| Serializers.IntOrderPreservingOnNonNegatives | storage/src/test/java/tech/pegasys/teku/storage/server/leveldb/LevelDbInstanceTest.java:125-145 | Non-negative int keys keep their numeric order and their distinctness as bytes. |
| Serializers.IntNegativeSortsLast | storage/src/test/java/tech/pegasys/teku/storage/server/leveldb/LevelDbInstanceTest.java:356-358 | The two's-complement encoding puts -1 after 0 in the store's order. |
| Serializers.IntNegativesSortAfterNonNegatives | storage/src/test/java/tech/pegasys/teku/storage/server/leveldb/LevelDbInstanceTest.java:356-358 | Every negative int's encoding sorts strictly after every non-negative int's encoding in the store's unsigned byte order. |
| KvStoreOrdering.WritesElsewhereInvisible | storage/src/test/java/tech/pegasys/teku/storage/server/leveldb/LevelDbInstanceTest.java:193-218 | A write to another column or to a variable changes neither a column's keys, nor its floors, nor its values. |
| KvStoreOrdering.FloorOfStoredKeyIsItself | storage/src/test/java/tech/pegasys/teku/storage/server/leveldb/LevelDbInstanceTest.java:267-278 | The floor of a stored key is that key. |
| KvStoreOrdering.FloorPastTheEnd | storage/src/test/java/tech/pegasys/teku/storage/server/leveldb/LevelDbInstanceTest.java:316-339 | At or past a column's last key, the floor is that last key. |
| KvStoreOrdering.WideRangeIsWholeColumn | storage/src/test/java/tech/pegasys/teku/storage/server/leveldb/LevelDbInstanceTest.java:172-191 | A range covering every stored key of a column selects the whole column. |
| KvStoreOrdering.UInt64EntriesDecode | storage/src/test/java/tech/pegasys/teku/storage/server/leveldb/LevelDbInstanceTest.java:237-239 | Entries read from a column of 8-byte keys and values all decode, to the UInt64s their bytes encode. |
| KvStoreOrdering.UInt64StreamIsNumericRange | storage/src/test/java/tech/pegasys/teku/storage/server/leveldb/LevelDbInstanceTest.java:220-241 | A UInt64 stream from `from` to `to` succeeds. Its keys strictly ascend and lie in from..to, each with its stored value. Every stored key in from..to appears. |
| KvStoreOrdering.UInt64FloorIsPredecessor | storage/src/test/java/tech/pegasys/teku/storage/server/leveldb/LevelDbInstanceTest.java:267-289 | In a UInt64 column the floor of x decodes to the greatest stored key that is at most x numerically. |
| KvStoreOrdering.UInt64FloorAbsent | storage/src/test/java/tech/pegasys/teku/storage/server/leveldb/LevelDbInstanceTest.java:291-314 | A UInt64 column has no floor for x exactly when every stored key is greater than x. |
| KvStoreOrdering.IntEntriesDecode | storage/src/test/java/tech/pegasys/teku/storage/server/leveldb/LevelDbInstanceTest.java:134-144 | Entries read from a column of non-negative int keys all decode, to non-negative ints that re-encode to the stored bytes. |
| KvStoreOrdering.IntStreamIsNumericRange | storage/src/test/java/tech/pegasys/teku/storage/server/leveldb/LevelDbInstanceTest.java:125-218 | With non-negative bounds and keys, an int stream succeeds. Its keys strictly ascend within from..to, each with its stored value. Every stored key in from..to appears. |
| KvStoreOrdering.IntFloorIsPredecessor | storage/src/test/java/tech/pegasys/teku/storage/server/leveldb/LevelDbInstanceTest.java:267-289 | For non-negative keys, the floor of x decodes to the greatest stored key that is at most x numerically. |
| KvStoreOrdering.IntFloorAbsent | storage/src/test/java/tech/pegasys/teku/storage/server/leveldb/LevelDbInstanceTest.java:291-314 | For non-negative keys, there is no floor of x exactly when every stored key is greater than x. |
| KvStoreOrdering.IncreasingCoverIsRange | storage/src/test/java/tech/pegasys/teku/storage/server/leveldb/LevelDbInstanceTest.java:233-239 | A strictly increasing sequence within lo..hi that contains every number of lo..hi is exactly lo, lo+1, ..., hi. |
| KvStoreScenarios.IntIdentityStream | storage/src/test/java/tech/pegasys/teku/storage/server/leveldb/LevelDbInstanceTest.java:125-218 | Take a column holding (k, k) for its keys, whose keys in from..to are exactly lo..hi. Its stream is (lo, lo), ..., (hi, hi). |
| KvStoreScenarios.FreshRangeStream | storage/src/test/java/tech/pegasys/teku/storage/server/leveldb/LevelDbInstanceTest.java:125-218 | On a new store, after one batch that puts (k, k) for a..b in column c, a stream from..to is (max(a,from), ...) up to min(b,to). Writes elsewhere in the batch do not change this. |
| KvStoreScenarios.FreshUInt64Stream | storage/src/test/java/tech/pegasys/teku/storage/server/leveldb/LevelDbInstanceTest.java:220-241 | After identity puts of UInt64s covering from..to, the stream's keys are exactly from, ..., to in order. |
| KvStoreScenarios.IntIdentityFloor | storage/src/test/java/tech/pegasys/teku/storage/server/leveldb/LevelDbInstanceTest.java:267-339 | In a column holding (k, k), the floor of x is empty exactly when every key exceeds x. Otherwise it is (y, y) for the greatest key y at most x. |
| KvStoreScenarios.FreshFloor | storage/src/test/java/tech/pegasys/teku/storage/server/leveldb/LevelDbInstanceTest.java:267-339 | On a new store, after one batch of identity puts to a column, the floor of x is the entry of the greatest put key at most x. It is empty if there is none, whatever the batch wrote elsewhere. |
| KvStoreScenarios.StoreAndLoadSimpleKey | storage/src/test/java/tech/pegasys/teku/storage/server/leveldb/LevelDbInstanceTest.java:89-108 | Every assertion of the simple-key test: each column reads its own puts and nothing else. |
| KvStoreScenarios.StoreAndLoadVariables | storage/src/test/java/tech/pegasys/teku/storage/server/leveldb/LevelDbInstanceTest.java:110-123 | Variables read empty before the commit and their own values after it. |
| KvStoreScenarios.PutRawThenGet | storage/src/test/java/tech/pegasys/teku/storage/server/leveldb/LevelDbInstanceTest.java:243-251 | Any 8 raw bytes put in the UInt64 variable read back raw as themselves, and typed as the number they spell. |
| KvStoreScenarios.StreamRawGetsBytes | storage/src/test/java/tech/pegasys/teku/storage/server/leveldb/LevelDbInstanceTest.java:253-265 | After putting (0, data), the typed read is data. The raw stream is the single entry (eight zero bytes, data's encoding). |
| KvStoreScenarios.StreamUnsignedKeys | storage/src/test/java/tech/pegasys/teku/storage/server/leveldb/LevelDbInstanceTest.java:220-241 | Keys 499..655 streamed from 500 to 650 give exactly 500, ..., 650 in order. |
| KvStoreScenarios.StreamMiddleOfColumn | storage/src/test/java/tech/pegasys/teku/storage/server/leveldb/LevelDbInstanceTest.java:125-145 | Keys 0..9 streamed from 2 to 8 give exactly (2, 2), ..., (8, 8). |
| KvStoreScenarios.StreamWholeColumn | storage/src/test/java/tech/pegasys/teku/storage/server/leveldb/LevelDbInstanceTest.java:147-170 | Keys 0..9 streamed from 0 to 9 give exactly (0, 0), ..., (9, 9). |
| KvStoreScenarios.StreamBeyondStoredRange | storage/src/test/java/tech/pegasys/teku/storage/server/leveldb/LevelDbInstanceTest.java:172-191 | Keys 2..7 streamed from 0 to 10 give exactly (2, 2), ..., (7, 7). |
| KvStoreScenarios.StreamMiddleColumn | storage/src/test/java/tech/pegasys/teku/storage/server/leveldb/LevelDbInstanceTest.java:193-218 | Column 2's stream from 0 to 10 gives exactly its own entries (2, 2), ..., (7, 7), despite columns 1 and 3 and two variables. |
| KvStoreScenarios.FloorWhenKeyExists | storage/src/test/java/tech/pegasys/teku/storage/server/leveldb/LevelDbInstanceTest.java:267-278 | The floor of 3 among keys 1..4 is (3, 3). |
| KvStoreScenarios.FloorWhenKeyMissing | storage/src/test/java/tech/pegasys/teku/storage/server/leveldb/LevelDbInstanceTest.java:280-289 | The floor of 3 among keys 1 and 4 is (1, 1). |
| KvStoreScenarios.FloorWhenNoPriorKey | storage/src/test/java/tech/pegasys/teku/storage/server/leveldb/LevelDbInstanceTest.java:291-300 | The floor of 2 among keys 3 and 4 is empty. |
| KvStoreScenarios.FloorWhenNoPriorKeyInColumn | storage/src/test/java/tech/pegasys/teku/storage/server/leveldb/LevelDbInstanceTest.java:302-314 | The floor of 2 in column 2 (keys 3 and 4) is empty, although column 1 holds 1. |
| KvStoreScenarios.FloorAfterLastKeyInColumn | storage/src/test/java/tech/pegasys/teku/storage/server/leveldb/LevelDbInstanceTest.java:316-328 | The floor of 5 in column 1 (keys 1 and 4) is (4, 4), although column 2 follows. |
| KvStoreScenarios.FloorAfterLastKeyInStore | storage/src/test/java/tech/pegasys/teku/storage/server/leveldb/LevelDbInstanceTest.java:330-339 | The floor of 5 past the store's last key is (4, 4). |
| Eth1HeadTracking.Candidate | pow/src/main/java/tech/pegasys/teku/pow/BlockBasedEth1HeadTracker.java:78-82 | There is a candidate exactly when the head is at least the follow distance. It lies exactly the follow distance below the head, so the subtraction never goes below zero. |
| Eth1HeadTracking.Advance | pow/src/main/java/tech/pegasys/teku/pow/BlockBasedEth1HeadTracker.java:78-92 | The head advances only to the candidate, and only when it is strictly above the current head or none is set. Otherwise there is no candidate or it is not above the head. |
| Eth1HeadTracking.HeadIsLargestCandidate | pow/src/main/java/tech/pegasys/teku/pow/BlockBasedEth1HeadTracker.java:76-93 | After any sequence of heads, the tracked head is unset exactly when no head reached the follow distance. Otherwise it is the largest follow-distance candidate among the heads. |
| Eth1HeadTracking.DeliveredIncreasing | pow/src/main/java/tech/pegasys/teku/pow/BlockBasedEth1HeadTracker.java:83-91 | Subscribers receive strictly increasing values. They receive something exactly when the head is set, and the last value received is the current head. |
| Eth1HeadTracking.HeadCoversLatest | pow/src/main/java/tech/pegasys/teku/pow/BlockBasedEth1HeadTracker.java:78-92 | Right after a head at or past the follow distance, the tracked head is set and at least that head's candidate. |
| Eth1HeadTracking.Processed | pow/src/main/java/tech/pegasys/teku/pow/BlockBasedEth1HeadTracker.java:57-64 | A poll hands on the provider's block number exactly when the request succeeded and the number fits a UInt64. |
| Eth1HeadTracking.BlockBasedEth1HeadTracker.constructor | pow/src/main/java/tech/pegasys/teku/pow/BlockBasedEth1HeadTracker.java:29-43 | A new tracker is stopped and has no head, has not reached the head, and has notified nothing. |
| Eth1HeadTracking.BlockBasedEth1HeadTracker.Start | pow/src/main/java/tech/pegasys/teku/pow/BlockBasedEth1HeadTracker.java:45-51 | Only the call that finds the tracker stopped starts it and polls. On a running tracker it changes nothing. |
| Eth1HeadTracking.BlockBasedEth1HeadTracker.PollLatestHead | pow/src/main/java/tech/pegasys/teku/pow/BlockBasedEth1HeadTracker.java:53-74 | A stopped tracker does not ask and changes nothing. A running one applies the update rule to a fitting answer. A failed request or an oversized number changes neither head nor notifications. |
| Eth1HeadTracking.BlockBasedEth1HeadTracker.OnLatestBlockHead | pow/src/main/java/tech/pegasys/teku/pow/BlockBasedEth1HeadTracker.java:76-93 | The value delivered is exactly the update rule's advance. When present, it becomes the head, the head counts as reached, and the value is appended to the notifications. Otherwise all three are unchanged. The fold invariant is kept. |
| Eth1HeadTracking.BlockBasedEth1HeadTracker.Stop | pow/src/main/java/tech/pegasys/teku/pow/BlockBasedEth1HeadTracker.java:105-108 | After stopping, the tracker is not running. |
| Eth1HeadTracking.FollowDistanceRun | pow/src/main/java/tech/pegasys/teku/pow/BlockBasedEth1HeadTracker.java:45-108 | With follow distance 10, heads 5, 12, 11, 15 announce 2 and then 5. After stopping, a poll asks nothing. |
| ExecutionEngineStub.TransitionFor | ethereum/spec/src/main/java/tech/pegasys/teku/spec/executionengine/ExecutionEngineChannelStub.java:356-401 | A received configuration wins over the spec's. A zero hash gives TTD emulation: terminal hash 1, reached 10 s after activation. A non-zero hash gives TBH emulation with that hash, at activation time. Either way the terminal block is the zero-hash parent's child and carries the configured difficulty. |
| ExecutionEngineStub.ExchangeResponse | ethereum/spec/src/main/java/tech/pegasys/teku/spec/executionengine/ExecutionEngineChannelStub.java:243-251 | The answer keeps difficulty and hash. Its block number is the given one for a zero hash, and 1 otherwise. |
| ExecutionEngineStub.PayloadIdOf | ethereum/spec/src/main/java/tech/pegasys/teku/spec/executionengine/ExecutionEngineChannelStub.java:151-152 | A payload id is 8 bytes: 4 zero bytes, then the counter as an unsigned 32-bit int. It reads back as the counter, so distinct counters give distinct ids. |
| ExecutionEngineStub.PayloadFor | ethereum/spec/src/main/java/tech/pegasys/teku/spec/executionengine/ExecutionEngineChannelStub.java:189-207 | A built payload extends the cached head. It takes fee recipient, randomness and timestamp from the attributes, and its number is the counter. |
| ExecutionEngineStub.HeaderOf | ethereum/spec/src/main/java/tech/pegasys/teku/spec/executionengine/ExecutionEngineChannelStub.java:276-281 | A header keeps its payload's block hash, parent hash and number. |
| ExecutionEngineStub.HeaderIdentifiesPayload | ethereum/spec/src/main/java/tech/pegasys/teku/spec/executionengine/ExecutionEngineChannelStub.java:311-315 | Two payloads have equal headers exactly when they are equal. |
| ExecutionEngineStub.UnblindBlock | ethereum/spec/src/main/java/tech/pegasys/teku/spec/executionengine/ExecutionEngineChannelStub.java:285-324 | Unblinding succeeds exactly when the slot is at Bellatrix, the block is blinded, a payload was handed out, and the block's header is that payload's header. It then returns that payload. Each failure is reported in the source's order. |
| ExecutionEngineStub.NextPayloadIdIsFresh | ethereum/spec/src/main/java/tech/pegasys/teku/spec/executionengine/ExecutionEngineChannelStub.java:151-156 | When every cached id reads back at most the counter, the id of the next counter value is not cached. |
| ExecutionEngineStub.CachedIdsStayBounded | ethereum/spec/src/main/java/tech/pegasys/teku/spec/executionengine/ExecutionEngineChannelStub.java:151-156 | Caching the new counter value's id keeps every cached id between 1 and the counter. |
| ExecutionEngineStub.ExecutionEngineChannelStub.constructor | ethereum/spec/src/main/java/tech/pegasys/teku/spec/executionengine/ExecutionEngineChannelStub.java:49-79 | A new stub has no blocks, an empty cache, counter 0 and status VALID. It has detected no activation, sent no terminal block, received no configuration and handed nothing out. |
| ExecutionEngineStub.ExecutionEngineChannelStub.AddPowBlock | ethereum/spec/src/main/java/tech/pegasys/teku/spec/executionengine/ExecutionEngineChannelStub.java:85-87 | Registers the block under its hash. |
| ExecutionEngineStub.ExecutionEngineChannelStub.PrepareTransitionBlocks | ethereum/spec/src/main/java/tech/pegasys/teku/spec/executionengine/ExecutionEngineChannelStub.java:356-401 | The transition fields become TransitionFor at the activation time. |
| ExecutionEngineStub.ExecutionEngineChannelStub.CheckBellatrixActivation | ethereum/spec/src/main/java/tech/pegasys/teku/spec/executionengine/ExecutionEngineChannelStub.java:348-354 | The first call detects activation and prepares the transition blocks at `now`. Later calls change nothing. |
| ExecutionEngineStub.ExecutionEngineChannelStub.GetPowBlock | ethereum/spec/src/main/java/tech/pegasys/teku/spec/executionengine/ExecutionEngineChannelStub.java:89-112 | Without emulation, the hash is recorded and the registered block, if any, is returned. With emulation, after the activation check: hash 0 gives the parent; the terminal hash gives the terminal block and marks it sent; any other hash fails. |
| ExecutionEngineStub.ExecutionEngineChannelStub.GetPowChainHead | ethereum/spec/src/main/java/tech/pegasys/teku/spec/executionengine/ExecutionEngineChannelStub.java:114-133 | Without emulation it fails. Once the terminal block was sent, the head is the last valid block or else the terminal block. Before that: the terminal block (then sent) from the transition time on, the parent earlier. |
| ExecutionEngineStub.ExecutionEngineChannelStub.CachePayloadEntry | ethereum/spec/src/main/java/tech/pegasys/teku/spec/executionengine/ExecutionEngineChannelStub.java:153-156 | The new id is cached with its entry. The cache stays within 10 entries and keeps only old entries unchanged. Below capacity, nothing is evicted. |
| ExecutionEngineStub.ExecutionEngineChannelStub.ForkChoiceUpdated | ethereum/spec/src/main/java/tech/pegasys/teku/spec/executionengine/ExecutionEngineChannelStub.java:135-159 | Runs the activation check and reports VALID. Without attributes nothing else changes. With them the counter goes up by one, and its new id is returned and newly cached with head and attributes. A counter past 32 bits fails. |
| ExecutionEngineStub.ExecutionEngineChannelStub.AssignPayloadId | ethereum/spec/src/main/java/tech/pegasys/teku/spec/executionengine/ExecutionEngineChannelStub.java:151-157 | Increments the counter and caches the entry under the new, previously unused id. It fails, caching nothing, when the counter no longer fits 32 bits. |
| ExecutionEngineStub.ExecutionEngineChannelStub.GetPayload | ethereum/spec/src/main/java/tech/pegasys/teku/spec/executionengine/ExecutionEngineChannelStub.java:161-225 | After the activation check it fails before Bellatrix or for an uncached id, leaving the last valid block unchanged. Otherwise it returns the payload for the cached entry and records it as the last valid block. |
| ExecutionEngineStub.ExecutionEngineChannelStub.NewPayload | ethereum/spec/src/main/java/tech/pegasys/teku/spec/executionengine/ExecutionEngineChannelStub.java:227-234 | Any new payload is answered with the configured status. |
| ExecutionEngineStub.ExecutionEngineChannelStub.SetPayloadStatus | ethereum/spec/src/main/java/tech/pegasys/teku/spec/executionengine/ExecutionEngineChannelStub.java:330-332 | Later new payloads are answered with the given status. |
| ExecutionEngineStub.ExecutionEngineChannelStub.ExchangeTransitionConfiguration | ethereum/spec/src/main/java/tech/pegasys/teku/spec/executionengine/ExecutionEngineChannelStub.java:236-257 | Stores the configuration and answers ExchangeResponse of it. |
| ExecutionEngineStub.ExecutionEngineChannelStub.GetPayloadHeader | ethereum/spec/src/main/java/tech/pegasys/teku/spec/executionengine/ExecutionEngineChannelStub.java:259-283 | Fails as GetPayload does, keeping both the remembered payload and the last valid block. Otherwise it remembers the built payload for unblinding and returns its header. |
| ExecutionEngineStub.ExecutionEngineChannelStub.ProposeBlindedBlock | ethereum/spec/src/main/java/tech/pegasys/teku/spec/executionengine/ExecutionEngineChannelStub.java:285-324 | Succeeds exactly when the slot is at Bellatrix, the block is blinded, and its header is that of the payload last handed out. It then returns that payload. |
| ExecutionEngineStub.TtdTransition | ethereum/spec/src/main/java/tech/pegasys/teku/spec/executionengine/ExecutionEngineChannelStub.java:114-133 | TTD emulation: up to 9 s after activation the head is the parent. At 10 s it is the terminal block (hash 1, spec difficulty), which is then found by hash. |
| ExecutionEngineStub.TbhTransition | ethereum/spec/src/main/java/tech/pegasys/teku/spec/executionengine/ExecutionEngineChannelStub.java:236-257 | An exchanged non-zero hash is answered with block number 1. The hash then gives the terminal block, which is the chain head from then on. |
| ExecutionEngineStub.TbhOtherHashes | ethereum/spec/src/main/java/tech/pegasys/teku/spec/executionengine/ExecutionEngineChannelStub.java:89-112 | Under TBH emulation, hash 0 gives the parent and an unrelated hash is refused. |
| ExecutionEngineStub.NoEmulation | ethereum/spec/src/main/java/tech/pegasys/teku/spec/executionengine/ExecutionEngineChannelStub.java:85-119 | Without emulation, lookups answer from the registered blocks and record the requested hashes, and the chain head is refused. |
| ExecutionEngineStub.PayloadIdsCount | ethereum/spec/src/main/java/tech/pegasys/teku/spec/executionengine/ExecutionEngineChannelStub.java:135-159 | Two updates with attributes get payload ids 1 and 2. |
| ExecutionEngineStub.BuilderFlow | ethereum/spec/src/main/java/tech/pegasys/teku/spec/executionengine/ExecutionEngineChannelStub.java:259-324 | The header for an update's id describes a payload on the requested head with the requested attributes. A blinded block with that header unblinds to exactly that payload, and one with another header is refused. |

## Left out

- KvStore.KvStoreAccessor.GetRaw and KvStore.KvStoreTransaction.PutRaw are the column forms of the raw read and the raw put. No test in the suite calls them on a column; the tests only use the variable forms (GetVariableRaw, PutVariableRaw). The model gives the column forms the same contracts as the variable forms, and KvStore.ReadsLastCommittedRawPut states their raw/typed agreement after a commit, but no source line pins them down.
- The LevelDB engine itself is not modelled: files, snapshots, iterators, closing the instance, and deletes (which the tests do not use). Neither are metrics, logging, or the concurrency of the store, the stub (concurrent map, atomic counter) or the tracker (atomic flags).
- The UInt64 serializer's source is not part of this model. Its 8-byte big-endian form is taken from the raw-stream test, which reads key 0 back as eight zero bytes. Deserializers follow the `fromByteArray` shape: they fail on fewer than the width's bytes and read the leading bytes.
- The random data of the raw-put and raw-stream tests are parameters. The test masks off the sign bit only for its own `UInt64.valueOf(long)`; the model allows any 8 bytes.
- KvStore.KvStoreAccessor.Stream: the model states the result for any bounds. The numeric-range reading (KvStoreOrdering) is proved for UInt64 columns, and for int columns only for non-negative bounds and keys. Every negative int sorts after every non-negative one (Serializers.IntNegativesSortAfterNonNegatives), so an int range across zero is not numeric.
- ExecutionEngineStub.ExecutionEngineChannelStub.CachePayloadEntry: the LRU order is not modelled. When the cache is full some other entry is evicted, not necessarily the least recently used. Reads (`getCached`) do not update any order.
- The transition emulation assumes Bellatrix is scheduled. The failure when it is not (a null check in prepareTransitionBlocks) is not modelled.
- `spec.atSlot(slot)` is reduced to a boolean saying whether the slot is at Bellatrix or later.
- `hashTreeRoot` equality of a header and a payload is modelled as equality of the header with the payload's own header (ExecutionEngineStub.HeaderOf).
- Payload fields the stub fills with fixed or random filler (logs bloom, extra data, transactions) are not modelled. The random block hash is a parameter.
- `UInt64.plus` overflow of the transition time, and the 64-bit wrap of the payload counter, are not modelled; times and the counter are unbounded naturals. The 32-bit limit of the payload id is modelled.
- `getBeaconBlock().orElseThrow()` on an unsigned block is not modelled. A block body is either blinded with a header or full.
- The getters getPayloadStatus and getRequestedPowBlocks are reads of the fields `payloadStatus` and `requestedPowBlocks`.
- The tracker's rescheduling of the next poll after `secondsPerEth1Block` (the async runner) is not modelled. Each poll is one call, and Stop makes later calls do nothing.
- Subscribers, subscribe and unsubscribe are left out. Deliveries are recorded in the `notifications` sequence, which is what every subscriber receives.
- A failed provider request and a block number beyond 64 bits are logged and dropped in the source. They are an absent answer, or one not processed (Eth1HeadTracking.Processed).
