# Maelstrom challenge nodes: log, transactions, broadcast de-duplication

A Dafny model of the request handlers of three single-node services from a
set of Maelstrom distributed-systems exercises written in Go. Each handler
is modelled as one atomic, sequential state transition on a class that owns
the node's state. The log and transaction handlers hold one mutex for the
whole request. The broadcast handler takes no lock itself. It accesses shared
state in two ways. One is the test-and-insert `Exists`, which, like `KeyList`,
locks the seen-message set for its own duration. The other is an unlocked read
of the neighbour list `destinations` (maelstrom-broadcast/main.go:95), which
the `topology` handler assigns, also without a lock (main.go:158).
`HandleBroadcast` takes the neighbour list as a parameter, so the model
assumes that the list does not change during a broadcast.

- **Kafka-style log** (`kafka.dfy`, module `Kafka`). `ThreadSafeLog` holds a
  map from log key to `Log(committedOffset, entries)`. `send` allocates the next
  offset (the last entry's offset + 1, or `(number of logs + 1) * 1000` for a
  new key, which also becomes the new log's committed offset) and appends one
  entry. `poll` returns, per requested key, up to three entries at or above the
  requested offset, in log order. `commit_offsets` max-merges committed
  offsets of keys that have a log. `list_committed_offsets` reports the
  committed offset of each requested key that has a log and omits the others.
  The invariant `WellFormed` (every log non-empty, offsets gap-free and
  ascending, committed offset not below the first offset) is kept by every
  handler. `send`, `poll` and `commit_offsets` are methods proved against a
  function (`Append`, `PollKey`/`Batch`, `CommitAll`) whose properties are
  lemmas; `ListCommittedOffsets` has no such function and states its reply
  directly in its own contract.
- **Transaction interpreter** (`txn.dfy`, module `Txn`). `KeyValueStore.HandleTxn`
  applies micro-ops `[kind, key, value]` in order to an integer map. Reads of a
  stored key fill in the value; writes of a numeric value store it; ops with a
  non-numeric key are dropped from the reply. `Step` and `Run` specify one op
  and a whole transaction.
- **Broadcast de-duplication** (`broadcast.dfy`, module `Broadcast`).
  `SafeMessageMap` holds the set of seen messages: `Exists` is test-and-insert,
  `KeyList` enumerates the set, and `HandleBroadcast` decides the neighbours a
  message is forwarded to (none if it was seen, otherwise every listed
  neighbour other than the sender).

`wrappers.dfy` holds the `Option` type used for JSON elements that may be null
or non-numeric.

Three consequences of the code are worth knowing:

- A log's committed offset is set to its first offset when the log is created
  (maelstrom-kafka/main.go:100). So `list_committed_offsets` reports a key that
  has only been sent to, never committed, with its first offset; only keys
  with no log are omitted. The model does the same (`Append`,
  `ListCommittedOffsets`).
- First offsets are multiples of 1000, at least 1000, and a commit takes the
  maximum with the current committed offset. So a commit below a log's first
  offset is ignored (`CommitBelowFirstIgnored`). "Commit 5, then 3, then list
  reports 5" therefore holds for no key: the list reports the committed offset
  the log already had.
- Because of the three-entry cap, a poll from offset 0 right after a send
  misses the sent entry once the log holds more than three entries (entries
  1000..1002, then a send that gets 1003: a poll from 0 returns 1000..1002;
  `PollFromZeroIsCapped`).
  `PollAfterSend` proves the form that always holds: polling from the offset
  `send` returned yields exactly the sent entry.

## Model

| member | source | states |
|---|---|---|
| Kafka.ThreadSafeLog.constructor | maelstrom-kafka/main.go:76 | the node starts with no logs, which satisfies the invariant |
| Kafka.Append | maelstrom-kafka/main.go:88-108 | `send` to a known key replies with the last entry's offset + 1 and appends exactly that entry at the end, keeping the committed offset; to a new key it creates a one-entry log at offset (number of logs + 1) * 1000 with that committed offset; the key set grows by the key alone and every other log is unchanged |
| Kafka.SendKeepsInvariant | maelstrom-kafka/main.go:91-107 | `send` keeps every log non-empty and gap-free (what line 92 relies on), its entry is the last of the key's log, and its offset is above every offset already in that log |
| Kafka.ThreadSafeLog.Send | maelstrom-kafka/main.go:78-114 | the handler keeps the invariant and its new state and reply are exactly those of `Append` |
| Kafka.AdjacentOffsets | maelstrom-kafka/main.go:92-96 | a log is gap-free (the i-th entry's offset is the first offset + i) exactly when each entry's offset is one more than the previous entry's, the step `send` takes at line 92 |
| Kafka.ExtendContiguous | maelstrom-kafka/main.go:92-96 | appending an entry one past the last keeps a gap-free log gap-free and keeps its first entry |
| Kafka.OffsetsStrictlyIncrease | maelstrom-kafka/main.go:92-96 | offsets in a stored log strictly increase with position, so no offset is handed out twice for one key |
| Kafka.LastOffsetIsGreatest | maelstrom-kafka/main.go:92 | no entry of a gap-free log has an offset above the last entry's |
| Kafka.Batch | maelstrom-kafka/main.go:133-145 | the entries one poll returns from one log: the first `room` entries in log order whose offset is at least the start; it has at most `room` entries, all at or above the start offset |
| Kafka.PollKey | maelstrom-kafka/main.go:130-148 | the reply for one requested key: the three-entry batch from its log, or the empty list when the key has no log; at most three entries, all at or above the start offset |
| Kafka.BatchSound | maelstrom-kafka/main.go:136-138 | every entry of a poll batch is an entry of the log |
| Kafka.BatchComplete | maelstrom-kafka/main.go:136-145 | an entry at or above the start offset is left out of a batch only when the batch is full |
| Kafka.FirstAtOrAboveIsFirst | maelstrom-kafka/main.go:136-137 | on a gap-free log, the index where a batch starts is the first entry at or above the start offset: every earlier entry is below it and every later one at or above |
| Kafka.BatchSkipsBelow | maelstrom-kafka/main.go:136-137 | entries below the start offset at the front of a log do not change the batch |
| Kafka.BatchTakesPrefix | maelstrom-kafka/main.go:136-143 | when every entry is at or above the start offset, the batch is the first `room` entries of the log |
| Kafka.BatchOfContiguous | maelstrom-kafka/main.go:133-145 | on a gap-free log the batch is the slice of the log from the first entry at or above the start offset, cut after the cap: the first qualifying entries in ascending-offset order |
| Kafka.BatchFromLast | maelstrom-kafka/main.go:136-145 | polling a gap-free log from its last entry's offset yields that entry alone |
| Kafka.PollFromZeroIsCapped | maelstrom-kafka/main.go:91-145 | with entries 1000..1002 in a log, a send gets 1003 and a poll from 0 returns 1000..1002 without the sent entry |
| Kafka.PollAfterSend | maelstrom-kafka/main.go:91-145 | polling a key from the offset `send` just returned yields exactly the sent entry |
| Kafka.CollectBatch | maelstrom-kafka/main.go:133-145 | the per-key loop of `poll`, with its counter and early exit at three, returns exactly the batch of at most three entries at or above the start offset, in log order |
| Kafka.ThreadSafeLog.Poll | maelstrom-kafka/main.go:116-155 | the reply has an entry for every requested key and no other; a key with no log maps to the empty list; a known key maps to the first three entries at or above its start offset; no state changes |
| Kafka.CommitAll | maelstrom-kafka/main.go:167-173 | after a commit no log is created or removed and no entries change; each requested key with a log has committed offset max(old, requested) (at least both, and equal to one of them), so it never decreases; keys not requested are untouched |
| Kafka.CommitPreservesWellFormed | maelstrom-kafka/main.go:169-173 | a commit keeps the log invariant |
| Kafka.CommitIdempotent | maelstrom-kafka/main.go:171 | repeating a commit changes nothing |
| Kafka.CommitBelowFirstIgnored | maelstrom-kafka/main.go:169-173 | committing an offset below a log's first offset leaves the whole state unchanged |
| Kafka.CommitCommutes | maelstrom-kafka/main.go:169-173 | committing a then b equals committing b then a |
| Kafka.ThreadSafeLog.CommitOffsets | maelstrom-kafka/main.go:157-178 | the handler keeps the invariant and its new state is exactly `CommitAll` of the old one |
| Kafka.ThreadSafeLog.ListCommittedOffsets | maelstrom-kafka/main.go:180-203 | the reply holds exactly the requested keys that have a log, each with its current committed offset; unknown keys are omitted, not reported as 0 |
| Kafka.Scenario | maelstrom-kafka/main.go:91-197 | sending 10 and 20 to a new key "x" replies 1000 and 1001; polling "x" from 1000 yields [1000, 10], [1001, 20]; committing 1000 leaves "x" committed at 1000 |
| Txn.Step | maelstrom-txn/main.go:53-73 | an op with a non-numeric key is dropped and changes nothing; any other op adds exactly one reply element echoing its kind and key (and value unless it is a read); a read of a stored key replies with the stored value and of an absent key with the value it came with; only a write of a numeric value changes the store, at its key, to that value |
| Txn.Run | maelstrom-txn/main.go:52-75 | a transaction's ops applied one by one in input order; the reply so far is kept as a prefix and grows by at most one element per op, and no stored key is ever removed |
| Txn.Kept | maelstrom-txn/main.go:55-73 | the ops that reach the reply, in input order: no more than the transaction has, and each one an op of the transaction with a numeric key |
| Txn.KeptComplete | maelstrom-txn/main.go:55-73 | no op with a numeric key is dropped: every such op of the transaction is among the kept ops |
| Txn.RunConcat | maelstrom-txn/main.go:52-75 | running a transaction in two pieces is running it whole |
| Txn.RunEchoesInOrder | maelstrom-txn/main.go:52-73 | the reply answers the ops with a numeric key, one element each, in input order |
| Txn.ReplyNoLongerThanRequest | maelstrom-txn/main.go:55-73 | the reply is never longer than the transaction |
| Txn.RunKeepsUnwritten | maelstrom-txn/main.go:58-72 | a key no op writes a numeric value to keeps its stored value, or stays absent |
| Txn.ReadsLeaveStore | maelstrom-txn/main.go:58-62 | a transaction without writes leaves the store unchanged |
| Txn.ReadYourWrites | maelstrom-txn/main.go:58-71 | a read of k after a write of v to k, with no numeric write to k in between, replies with v |
| Txn.KeyValueStore.constructor | maelstrom-txn/main.go:38 | the store starts empty |
| Txn.KeyValueStore.HandleTxn | maelstrom-txn/main.go:50-75 | the handler's new store and reply are exactly those of running the ops in order from the old store |
| Broadcast.OtherThan | maelstrom-broadcast/main.go:95-96 | the neighbours a new message is forwarded to: the listed neighbours other than the sender, in list order; never the sender and never more than are listed |
| Broadcast.OtherThanMembers | maelstrom-broadcast/main.go:95-96 | forwarding targets are exactly the listed neighbours that differ from the sender, each as many times as it is listed (as a multiset, the list with the sender removed) |
| Broadcast.SafeMessageMap.constructor | maelstrom-broadcast/main.go:75 | the seen set starts empty |
| Broadcast.SafeMessageMap.Exists | maelstrom-broadcast/main.go:176-186 | returns true iff the message was seen before; afterwards it is in the set and nothing else was added or removed; a repeated call returns true and changes nothing |
| Broadcast.SafeMessageMap.KeyList | maelstrom-broadcast/main.go:189-193 | returns each seen message exactly once and nothing else |
| Broadcast.SafeMessageMap.HandleBroadcast | maelstrom-broadcast/main.go:87-125 | the message is marked seen; a message seen before is forwarded to no one; a new one to exactly the listed neighbours other than the sender, in list order |

## Left out

- Maelstrom node plumbing (node creation, handler registration, replies, RPCs, the run loop) and JSON encoding of request and reply bodies: a foreign library and I/O. Handlers take their decoded request fields as parameters and return the reply's payload; a poll reply's `[offset, message]` pairs are `LogEntry` values.
- Mutexes: each handler is one atomic method; concurrency between requests is not modelled, including the unlocked race between `broadcast` reading the neighbour list and `topology` assigning it.
- Go's randomised map iteration order in `poll` and `commit_offsets`: the model takes the keys in an arbitrary order, and each key's result does not depend on it.
- Integer width: offsets, messages, keys and values are unbounded integers; Go's 64-bit `int` overflow is not modelled.
- The float-to-int conversion of transaction keys and values: a key or value is `Some(n)` when it decodes as a number and `None` otherwise. A non-null value that is not a number is echoed as `None`, not as the original JSON value. This applies to a write's value, to the value carried by a read of an absent key, and to the value of an op of any other kind (Go echoes `["append", 1, "x"]` with `"x"`).
- Micro-op kinds that are not strings: `kind` is a `string`, while Go compares any JSON value with `"r"` and `"w"` and echoes it unchanged (maelstrom-txn/main.go:58, 65, 73).
- Micro-ops with more than three elements: a `MicroOp` has exactly three fields, while Go echoes every element of the op (maelstrom-txn/main.go:73).
- Micro-ops with fewer than three elements: a `MicroOp` always has all three fields. In Go, an op with fewer than two elements panics. So does a two-element write with a numeric key, or a two-element read of a stored key. Other two-element ops do not panic, because an op with a non-numeric key is dropped before its third element is touched. None of these ops is modelled.
- Broadcast's per-neighbour goroutines, the RPC retry loop and its sleeps, the `broadcast_ok` and `read` replies: `HandleBroadcast` returns the neighbours a message would be forwarded to, and `read` is `KeyList`.
- The `topology` handler: the neighbour list is a parameter of `HandleBroadcast`.
- The counter service (a compare-and-swap retry loop against an external key-value service) and the unique-id service (a call into a UUID library): not part of this model.
- A log built on an external key-value store (marker keys per log, compare-and-swap offset allocation): that variant's code is not part of this model.
