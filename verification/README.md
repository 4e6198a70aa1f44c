# Verified models

Dafny models of the parts of this repository whose correctness is hardest to see, with proofs:

- **Paxos** (`6.824/src/paxos`). A peer's handlers and proposer calls are methods of a class over the
  peer's tables; the system is a state machine over all messages ever sent, so that every message may be
  lost, delayed, duplicated or reordered. Agreement is proved although a decision overwrites, and may
  lower, an acceptor's promise: the argument goes from the smallest ballot ever chosen, below which no
  decision can push an acceptor that voted for it.
- **SSDB** (`ssdb/src/ssdb`, `backend_sync.cpp`, `slave.cpp`). The write-plus-log transaction, the
  ordered log index, KV and hash operations, and replication by a sorted snapshot copy that runs while the
  log is tailed. Replication converges in every interleaving if and only if the master had a log to
  begin with, the worker's loop of whole calls is a run of it that ends, and a slave that comes back after a
  cut is served right exactly if what it remembers covers what it lacks.
- **The red-black tree** (`cnm/net/tree.h`) and **the B-tree** (`algorithm/btree.c`). Linked nodes
  updated in place, in classes and methods that follow the source statement by statement. For the
  red-black tree all fields of all nodes are also seen as one value, on which a zipper tells where a
  repair loop is; a B-tree node comes with the tree value it holds.
- **JSON** (`ssdb/src/util/json.hpp`). Pointers, patch and diff: the documented law that patching the
  source with the diff yields the target is proved to hold exactly where it does, and each operation is told
  by what can be read before and after it. CBOR and MessagePack: decoding undoes encoding, anywhere in a
  longer buffer, and accepts exactly the well-formed encodings, of all widths and forms.
- **RSA** (`Cipher/rsa.go`). The extended Euclid loop and the square-and-multiply loop on 64-bit integers,
  and the round trip for every pair of primes, with Fermat's little theorem proved on the way.
- **Link framing** (`ssdb/src/net/link.cpp`, `util/bytes.cpp`). The parser that starts over on every
  read yields the same packets however the bytes are cut, over a buffer that shifts and grows in place.
- **Messages in flight** (`nsq/src/nsqd`), **primary/backup and view service** (`6.824/src/pbservice`,
  `6.824/src/viewservice`) and **MapReduce** (`6.824/src/mapreduce`): an indexed heap that agrees with a map,
  at-most-once operations over all runs, the lineage of views, and a distributed run that equals a group-by.

Where the code does not do what it or its documentation says, the exact condition is proved and a
counterexample stands beside it: forgotten Paxos instances, replication from an empty log, a slave cut off inside
its copy, numbers over 2^53 in JSON equality, NaN and array indices over an int in JSON patches, patches that add
or move below what does not exist, or copy into an array, MessagePack sizes over 32 bits, a timeout started again
for a message in flight, a restarted primary that moves an unacknowledged view, a view service not pinged in time
at its start, and operations with an empty identifier or written to markers. The one-byte length in front of hash
names is a hazard that the code avoids: it is proved that its limits on written names and keys are exactly
the ones that keep unchecked reads right.

## Files

| files | content |
|---|---|
| `Collections`, `Lexicographic`, `Decimals`, `ByteOrder`, `NumberTheory` | options, sets and sequences, order of strings, decimal numerals, integers as bytes, divisibility and powers |
| `PaxosBallots`, `PaxosPeer`, `PaxosSynod`, `PaxosProtocol`, `PaxosForgotten`, `PaxosProgress` | proposal numbers, one peer, one instance, the system and its runs, exactly which instances agree, deciding and forgetting |
| `SsdbCodec`, `SsdbStore`, `SsdbImpl` | byte layouts, the store with its log, the operations |
| `SsdbReplica`, `SsdbReplication`, `SsdbSettles`, `SsdbEmptyLog`, `SsdbResume`, `SsdbWorker` | the two ends of replication, convergence, progress, the empty log, cuts of the link, the worker's loop |
| `RbShape`, `RbGraph`, `RbInsert`, `RbRemove`, `RbSearch`, `RbTree` | trees as values, pointer graphs and rotations, the two repairs, search, the class |
| `BTreeShape`, `BTree` | B-trees as values, nodes and insertion |
| `JsonValue`, `JsonPointer`, `JsonPatch`, `JsonOps`, `JsonDiff` | values and equality, pointers, patch, what each operation means, diff |
| `JsonBinary`, `JsonCbor`, `JsonMsgpack` | the binary formats: encoding, decoding, round trips |
| `JsonWire`, `JsonCborWire`, `JsonMsgpackWire` | all forms of an encoding, and that exactly these are decoded |
| `Rsa` | inverse, modular power, round trip |
| `LinkFraming`, `LinkBuffer` | packets and their parser, the buffer and the link |
| `NsqHeap`, `NsqInFlight` | heap order, the queue and the channel |
| `PbServer`, `ViewService`, `MapReduce` | one module per service |

`dafny verify dfyconfig.toml` checks everything.

## Model

| member | source | states |
|---|---|---|
| PaxosBallots.PNumUnique | 6.824/src/paxos/paxos.go:207-211 | two attempts share a proposal number only if they share the clock reading and the peer |
| PaxosPeer.Paxos.Prepare | 6.824/src/paxos/paxos.go:112-144 | creates a missing instance, promises only above the promise it holds, replies with what it accepted, and changes nothing else |
| PaxosPeer.Paxos.Accept | 6.824/src/paxos/paxos.go:146-176 | accepts at or above its promise and moves both numbers and the value together; otherwise rejects and changes nothing |
| PaxosPeer.Paxos.Decide | 6.824/src/paxos/paxos.go:178-197 | overwrites both numbers and the value whatever the promise was, marks the instance decided, records the sender's Done value |
| PaxosPeer.Paxos.Done | 6.824/src/paxos/paxos.go:366-379 | raises the peer's own entry and never lowers it |
| PaxosPeer.Paxos.Min | 6.824/src/paxos/paxos.go:424-457 | one more than the least Done entry; the decided instances below it are gone, and no other table entry changes |
| PaxosPeer.Paxos.Status | 6.824/src/paxos/paxos.go:459-475 | Forgotten exactly where every Done entry covers the instance, Decided with the held value exactly where a decided instance is above that, else Pending with what the table holds |
| PaxosPeer.Paxos.SendPrepare | 6.824/src/paxos/paxos.go:213-279 | succeeds exactly if a majority promised, with the value of the greatest accepted number or else the caller's |
| PaxosPeer.HighestIsMaximum | 6.824/src/paxos/paxos.go:232-238 | the loop's candidate is the value of a promise no other promise exceeds, and the caller's own only if no promise holds one |
| PaxosPeer.Paxos.SendAccept | 6.824/src/paxos/paxos.go:281-302 | succeeds exactly if a majority accepted |
| PaxosPeer.Paxos.SendDecide | 6.824/src/paxos/paxos.go:304-324 | overwrites the proposer's own instance with the decided number and value, and fails, as the nil dereference does, when that instance is gone |
| PaxosSynod.PrepareKeeps | 6.824/src/paxos/paxos.go:112-144 | a prepare step keeps the invariant of an instance |
| PaxosSynod.ProposeKeeps | 6.824/src/paxos/paxos.go:213-279 | proposing after a majority of promises keeps the invariant |
| PaxosSynod.AcceptKeeps | 6.824/src/paxos/paxos.go:146-176 | an accept step keeps the invariant |
| PaxosSynod.DecideKeepsBallot | 6.824/src/paxos/paxos.go:190-193 | a decision may lower both numbers of an acceptor, but what the invariant says of a ballot with no smaller chosen one still holds: its voters still stand at or above it |
| PaxosSynod.DecideKeeps | 6.824/src/paxos/paxos.go:178-197 | a decide step keeps the invariant |
| PaxosSynod.InheritsFromAbove | 6.824/src/paxos/paxos.go:213-279 | a proposal above the smallest chosen ballot repeats the value of a proposal between the two |
| PaxosSynod.LaterProposalsAgree | 6.824/src/paxos/paxos.go:213-324 | every proposal from the smallest chosen ballot upwards carries its value |
| PaxosSynod.ProposalsAreStarted | 6.824/src/paxos/paxos.go:326-349 | every proposal carries a value some peer was asked to Start |
| PaxosSynod.Agreement | 6.824/src/paxos/paxos.go:112-324 | proposals at or above a chosen ballot all carry one value |
| PaxosProtocol.StepRefines | 6.824/src/paxos/paxos.go:112-457 | above the least Done value every step of the system is a step of the instance or leaves it alone |
| PaxosProtocol.DecisionsAgree | 6.824/src/paxos/paxos.go:112-324 | in every run no two decisions about an instance above the least Done value carry different values |
| PaxosProtocol.DecisionsAreStarted | 6.824/src/paxos/paxos.go:326-364 | in every run a decision carries the value of a call of Start for that instance which Min did not turn away |
| PaxosProtocol.DecidedPeersAgree | 6.824/src/paxos/paxos.go:459-475 | two peers that show an instance as decided show the same value |
| PaxosProtocol.StatusIsRight | 6.824/src/paxos/paxos.go:459-475 | in every run, whichever way a peer answers Status, the answer is Forgotten or Decided exactly as its Done entries and its table say, and a decided value above the least Done value is that of every decision announced about the instance |
| PaxosProtocol.StatusIsStable | 6.824/src/paxos/paxos.go:459-475 | a decided instance stays decided with the same value while it is above the least Done value, although accepts and decides keep overwriting it |
| PaxosForgotten.ForgottenMayDisagree | 6.824/src/paxos/paxos.go:351-457 | for every instance k >= 0 and every t >= k a run that ends with least Done value t and two different decisions about k: the second is that of an attempt whose call of Start came before the instance was forgotten |
| PaxosForgotten.AgreementExactly | 6.824/src/paxos/paxos.go:351-457 | all runs that end with least Done value t agree on instance k if and only if k > t, or k < 0, which Start always turns away |
| PaxosProgress.AskAll | 6.824/src/paxos/paxos.go:112-144 | from any state of any run, every peer of a set whose promises are below a number can be asked, promises it, and names what it had accepted |
| PaxosProgress.UndisturbedDecides | 6.824/src/paxos/paxos.go:213-349 | from any state of any run, a proposer whose number is above the promises of two majorities, one asked and one voting, can go on to decide and announce, and decides its own value if none of the first has accepted any |
| PaxosProgress.MemoryIsFreed | 6.824/src/paxos/paxos.go:366-457 | from any state of any run in which every other peer has announced that it is done with t, a peer that is done with t can hear of them all and then holds no decided instance up to t and reports all of them as Forgotten |
| SsdbCodec.SeqKeyRoundTrip | ssdb/src/ssdb/binlog.cpp:5-20 | a log key decodes to its sequence number |
| SsdbCodec.SeqKeyOrder | ssdb/src/ssdb/binlog.cpp:5-20 | log keys compare as their sequence numbers do |
| SsdbCodec.RecordRoundTrip | ssdb/src/ssdb/binlog.cpp:22-43 | a log record yields the sequence number, type, command and key it was made of |
| SsdbCodec.HashKeysAreApart | ssdb/src/ssdb/ssdb_impl.cpp:29-38 | with names of up to 255 bytes a stored key belongs to one hash only |
| SsdbCodec.HashKeyInjective | ssdb/src/ssdb/ssdb_impl.cpp:29-38 | with names of up to 255 bytes name and field are told by the stored key |
| SsdbCodec.LongHashNamesCollide | ssdb/src/ssdb/ssdb_impl.cpp:29-38 | a name and the same name with an equals sign and 255 bytes more share stored keys |
| SsdbCodec.HashKeysMeet | ssdb/src/ssdb/ssdb_impl.cpp:29-38 | two fields share a stored key if and only if they are one, or one name continues the other with an equals sign through whole turns of the length byte and the fields make up for it |
| SsdbCodec.NamesApartExactly | ssdb/src/ssdb/ssdb_impl.cpp:29-38 | names of 1 to n bytes never share a stored key if and only if n <= 256 |
| SsdbCodec.ReadsApartExactly | ssdb/src/ssdb/ssdb_impl.cpp:190-282 | reads check no lengths, yet a stored field is read by its own name and key only, exactly when writes limit names and keys to 255 bytes each, as they do |
| SsdbStore.BinlogQueue.constructor | ssdb/src/ssdb/binlog.cpp:69-79 | opening a store finds the number its log ends with |
| SsdbStore.BinlogQueue.Commit | ssdb/src/ssdb/binlog.cpp:100-109 | all queued changes or none reach the disk, and the sequence number advances only if they did |
| SsdbStore.BinlogQueue.AddLog | ssdb/src/ssdb/binlog.cpp:115-124 | queues the record of the next sequence number |
| SsdbStore.BinlogQueue.FindLast | ssdb/src/ssdb/binlog.cpp:126-152 | the record with the greatest sequence number, or none if there is no record |
| SsdbStore.BinlogQueue.FindNext | ssdb/src/ssdb/binlog.cpp:165-187 | the record with the least sequence number at or above the argument, or none if there is no such record |
| SsdbStore.BinlogQueue.Get | ssdb/src/ssdb/binlog.cpp:154-163 | the record of exactly that sequence number |
| SsdbImpl.SSDBImpl.Set | ssdb/src/ssdb/ssdb_impl.cpp:127-143 | the value and one log entry are stored together, or neither if the commit fails; the empty key is refused |
| SsdbImpl.SSDBImpl.Del | ssdb/src/ssdb/ssdb_impl.cpp:145-157 | the key goes and one log entry is stored together, or nothing changes if the commit fails |
| SsdbImpl.SSDBImpl.Hset | ssdb/src/ssdb/ssdb_impl.cpp:172-188 | the field, the counter and the log entry change together or not at all, and the counters still agree with the fields |
| SsdbImpl.SSDBImpl.HsetOne | ssdb/src/ssdb/ssdb_impl.cpp:270-299 | refuses empty and over-long names and keys, and tells a new field from an overwritten and an unchanged one |
| SsdbImpl.SSDBImpl.Hsize | ssdb/src/ssdb/ssdb_impl.cpp:203-221 | the counter read is the number of distinct fields stored under the name |
| SsdbImpl.HsetApplied | ssdb/src/ssdb/ssdb_impl.cpp:172-299 | committing the batch of a hash set keeps log and store in step and every counter right |
| SsdbImpl.HsetThenHget | ssdb/src/ssdb/ssdb_impl.cpp:172-201 | after an accepted hash set the field reads back, and every other name and key, of any length, reads as before |
| SsdbReplica.BackendClient.Init | ssdb/src/backend_sync.cpp:96-115 | only a slave that has nothing starts with a copy |
| SsdbReplica.BackendClient.OutOfSync | ssdb/src/backend_sync.cpp:260-264 | the client stops and tells the slave so |
| SsdbReplica.BackendClient.Sync | ssdb/src/backend_sync.cpp:193-258 | one call skips the entries of keys not copied yet, then takes and sends at most one, or finds nothing, or gives up on a gap; `SsdbWorker.SyncIsSteps` and `FallsOutExactly` say what that is in the replicated system |
| SsdbReplica.QueueFindsLast | ssdb/src/ssdb/binlog.cpp:126-152 | in a store in step with its log the queue's last record has the number and entry the log view gives |
| SsdbReplica.QueueFindsNext | ssdb/src/ssdb/binlog.cpp:165-187 | and so has its least record from a number on |
| SsdbReplica.BackendClient.Copy | ssdb/src/backend_sync.cpp:138-191 | one call sends the next keys of the snapshot in order, up to the batch size, ends the copy when none is left, and returns what the worker's pause depends on; `SsdbWorker.CopyIsSteps` says what that is in the replicated system |
| SsdbReplica.SlaveNode.Proc | ssdb/src/slave.cpp:204-250 | what the slave stores and remembers for each packet |
| SsdbReplica.SlaveNode.ProcSync | ssdb/src/slave.cpp:252-291 | a log entry sets or deletes its key and moves the sequence number |
| SsdbReplica.SlaveNode.ProcCopy | ssdb/src/slave.cpp:293-313 | a copied key is stored and remembered; the end marker clears the key |
| SsdbReplication.MirrorArrives | ssdb/src/slave.cpp:230-245 | a slave takes a mirrored entry as it takes any other log entry |
| SsdbReplication.WritesKeepInStep | ssdb/src/ssdb/ssdb_impl.cpp:127-188 | in every run of writes the last log entry about a key says whether the key is there |
| SsdbReplication.HsetIsOtherWrite | ssdb/src/ssdb/ssdb_impl.cpp:172-188 | a hash set is one more log entry that leaves the KV keys alone |
| SsdbReplication.NextKeeps | ssdb/src/backend_sync.cpp:138-258 | every step of writers, worker, link and slave keeps the invariant: no log entry between the snapshot and last_seq touches a key above last_key |
| SsdbReplication.Converges | ssdb/src/backend_sync.cpp:138-258 | in every interleaving, a client past its copy, at the end of the log and with a drained link leaves slave and master with the same KV map |
| SsdbReplication.NeverOutOfSync | ssdb/src/backend_sync.cpp:260-264 | against a whole log the client never falls out of sync |
| SsdbSettles.WorkerGetsCloser | ssdb/src/backend_sync.cpp:40-82 | every worker step shrinks the log ahead, the keys still to copy, or the way back to the top of the loop |
| SsdbSettles.EventuallyConverges | ssdb/src/backend_sync.cpp:40-82 | from every reachable state, when writing stops, the worker and the slave alone bring both stores to agree |
| SsdbEmptyLog.EmptyLogLosesAWrite | ssdb/src/backend_sync.cpp:193-258 | a run from an empty master log that ends quiet with different stores |
| SsdbEmptyLog.ConvergesExactlyWithALog | ssdb/src/backend_sync.cpp:138-258 | all runs from an attached state converge if and only if the master's log was not empty |
| SsdbWorker.SyncIsSteps | ssdb/src/backend_sync.cpp:193-258 | whatever the world, the client that a call of Sync leaves is the one reached by fetch steps that skip entries, and then by one that finds nothing or falls out, or by taking one entry and delivering it |
| SsdbWorker.FallsOutExactly | ssdb/src/backend_sync.cpp:212-223 | Sync gives up if and only if the log has lost entries the client needs and its first entry is not of a key still to be copied; then the number stays and the slave hears of it, and otherwise the status stays |
| SsdbWorker.CopyIsSteps | ssdb/src/backend_sync.cpp:138-191 | the client that a call of Copy leaves is the one reached by the steps of the copy, from its opening to the end of the batch |
| SsdbWorker.TurnGetsCloser | ssdb/src/backend_sync.cpp:61-80 | a turn of the worker's loop is a run of the system, keeps its invariant, and comes closer to the end of log and copy unless both are reached |
| SsdbWorker.Replication.Turn | ssdb/src/backend_sync.cpp:61-80 | the loop's calls of Sync and Copy are such a turn |
| SsdbWorker.Replication.Receive | ssdb/src/slave.cpp:181-196 | the slave's call of Proc on the next packet is a step of the system |
| SsdbWorker.Replication.Reconnect | ssdb/src/slave.cpp:159-168 | after a cut a new client starts from what the slave remembers |
| SsdbWorker.Replication.CatchUp | ssdb/src/backend_sync.cpp:61-80 | from every state that keeps the invariant the loops of Sync, Copy and Proc come to an end, with the slave's data equal to the master's KV map |
| SsdbResume.NextRemembers | ssdb/src/slave.cpp:204-313 | every step of the system keeps this: wherever the link is cut, the slave's number is not beyond the log, a slave without a number holds nothing, and one that remembers no key is wrong only about keys that the log beyond its number names |
| SsdbResume.RemembersEnough | ssdb/src/slave.cpp:204-313 | so it is in every run with any number of cuts that find the slave without a key |
| SsdbResume.ConvergesThroughCuts | ssdb/src/slave.cpp:159-168 | in every such run, with what was on the link lost at each cut, a client at the end of the log with a drained link leaves both stores equal |
| SsdbResume.ComingBackExactly | ssdb/src/backend_sync.cpp:96-115 | after a cut anywhere in such a run, all runs from the new connection converge if and only if the log beyond the slave's number names every key it is wrong about |
| SsdbResume.CutInACopyLosesKeys | ssdb/src/backend_sync.cpp:96-115 | with a master of any two keys or more, a run that cuts the slave off inside its copy, after which some run from the new connection ends quiet with different stores |
| RbShape.PlugLaws | cnm/net/tree.h:48-54 | a lawful subtree of the right black height in a lawful path makes a lawful tree |
| RbShape.HeightBound | cnm/net/tree.h:48-54 | a red-black tree of n nodes has height at most 2 lg (n + 1) |
| RbGraph.RotFocus | cnm/net/tree.h:335-373 | the pointer writes of a rotation, at any place in the tree, exchange two nodes and nothing else, with all parent links right |
| RbInsert.Recolor | cnm/net/tree.h:398-404 | under a red uncle the doubt moves two levels up, order and black heights kept |
| RbInsert.Inner | cnm/net/tree.h:405-410 | an inner grandchild becomes an outer one, order and laws kept |
| RbInsert.Outer | cnm/net/tree.h:411-412 | an outer grandchild under a black uncle is settled by two colours and one rotation |
| RbInsert.Finished | cnm/net/tree.h:431-431 | blackening the head leaves a red-black tree with the same order |
| RbRemove.RedSib | cnm/net/tree.h:442-446 | a red sibling gives way to a black one, order and shortage kept |
| RbRemove.Lift | cnm/net/tree.h:447-453 | a black sibling without red children turns red and the shortage moves up, exactly one level |
| RbRemove.NearRed | cnm/net/tree.h:455-463 | a red near nephew becomes a far one |
| RbRemove.FarRed | cnm/net/tree.h:464-470 | a red far nephew ends the shortage |
| RbRemove.SpliceFocus | cnm/net/tree.h:559-570 | a node with at most one child is unlinked and nothing else moves |
| RbRemove.SeatFocus | cnm/net/tree.h:539-550 | a node takes over the links and colour of another |
| RbSearch.WithoutUndoesPlaced | cnm/net/tree.h:510-606 | removing what was inserted gives the list back |
| RbSearch.FollowingIsNextKey | cnm/net/tree.h:626-645 | the node after x carries the least larger key |
| RbTree.RBTree.RotateLeft | cnm/net/tree.h:335-353 | the field writes of the macro are the rotation on the graph |
| RbTree.RBTree.RotateRight | cnm/net/tree.h:355-373 | the mirror image |
| RbTree.RBTree.InsertColor | cnm/net/tree.h:390-432 | the repair loop ends in a red-black tree with the same order |
| RbTree.RBTree.RemoveColor | cnm/net/tree.h:434-508 | the repair loop ends in a red-black tree with the same order |
| RbTree.RBTree.Insert | cnm/net/tree.h:577-606 | an equal key is refused and its node returned, also when elm is in the tree itself; otherwise the ordered list of nodes grows by elm in its place, and links, colours and black heights are right again |
| RbTree.RBTree.Remove | cnm/net/tree.h:510-575 | the ordered list loses exactly elm, and links, colours and black heights are right again |
| RbTree.RBTree.Find | cnm/net/tree.h:609-624 | the node of that key, or null if there is none |
| RbTree.RBTree.Next | cnm/net/tree.h:626-645 | the node that follows in key order, or null at the end |
| RbTree.RBTree.MinMax | cnm/net/tree.h:647-660 | the first or the last node, or null in an empty tree |
| JsonPointer.ReplaceSubstring | ssdb/src/util/json.hpp:11346-11358 | the loop over find replaces every occurrence from the left |
| JsonPointer.UnescapeIsDecoded | ssdb/src/util/json.hpp:11370-11376 | the two passes decode a well-escaped token as section 4 of RFC 6901 says |
| JsonPointer.EscapeRoundTrip | ssdb/src/util/json.hpp:11361-11376 | unescaping an escaped string gives it back, and an escaped string holds no slash and only good escapes |
| JsonPointer.UnescapeRoundTrip | ssdb/src/util/json.hpp:11361-11376 | escaping an unescaped token gives it back |
| JsonPointer.SplitPointer | ssdb/src/util/json.hpp:11273-11331 | the loop yields the unescaped pieces between slashes, or the error for a missing slash or a bad escape |
| JsonPointer.PointerRoundTrip | ssdb/src/util/json.hpp:10918-10945 | parsing a printed pointer gives the pointer, as the library documents |
| JsonPointer.StringRoundTrip | ssdb/src/util/json.hpp:10918-10945 | printing a parsed pointer gives the string |
| JsonValue.EqualToSelf | ssdb/src/util/json.hpp:5522-5595 | a value equals itself exactly if it holds no NaN |
| JsonValue.EqualityIsNotTransitive | ssdb/src/util/json.hpp:5568-5591 | three numbers, one of them unsigned and past the range of a signed one, on which equality is not transitive |
| JsonValue.TransitiveExactly | ssdb/src/util/json.hpp:5522-5595 | equality is transitive on all values whose signed numbers lie in [-m, m] and unsigned ones in [0, n] if and only if m and n are at most 2^53 |
| JsonValue.EqualIsSameForm | ssdb/src/util/json.hpp:5522-5595 | on values without NaN whose integers are at most 2^53 in size, equality is sameness of type, shape, text and of the double each number stands for |
| JsonPatch.StoIDecimal | ssdb/src/util/json.hpp:11162-11162 | an index is read back from its decimal form unless it exceeds an int |
| JsonPatch.StoIReads | ssdb/src/util/json.hpp:11162-11162 | so is any numeral after spaces and a sign, whatever follows that is no digit |
| JsonPatch.WalkAt | ssdb/src/util/json.hpp:11065-11183 | where the checked access succeeds, checked and unchecked access refer to the same place |
| JsonPatch.ExecAt | ssdb/src/util/json.hpp:11743-11832 | add and remove at a child of an existing place, and replace at the place, change that place and nothing else |
| JsonPatch.AddedMember | ssdb/src/util/json.hpp:11743-11832 | a member added where there was none is read back, passes a test exactly if it holds no NaN, and its removal restores the document |
| JsonPatch.AddedElement | ssdb/src/util/json.hpp:11743-11832 | the same for an array element at any index up to the size that fits an int |
| JsonPatch.ApplyPatch | ssdb/src/util/json.hpp:11704-11962 | the operations run in order and the first failure is the outcome |
| JsonOps.MoveIsRemoveThenAdd | ssdb/src/util/json.hpp:11903-11918 | in every document a move comes to a remove of the source and an add of the value that stood there, and fails with the first of them that fails |
| JsonOps.MoveMember | ssdb/src/util/json.hpp:11903-11918 | after a member is moved to another object the value stands at the target, the source is gone, and every place apart from both reads as before |
| JsonOps.MoveOntoItself | ssdb/src/util/json.hpp:11903-11918 | a member moved onto itself leaves the document as it is |
| JsonOps.MoveBelowItself | ssdb/src/util/json.hpp:11903-11918 | a member is moved below itself, against section 4.4 of RFC 6902, if and only if it is not a member of the whole document and the tokens in between can be created |
| JsonOps.CopyMember | ssdb/src/util/json.hpp:11920-11928 | a copy to a member does what an add of the value does: the target holds the value, and every place apart from it, so the source if it is apart, reads as before |
| JsonOps.CopyIsAddExactly | ssdb/src/util/json.hpp:11920-11928 | at an array index a copy does what section 4.5 of RFC 6902 asks for, an add of the value, if and only if the index is the end of the array |
| JsonOps.TestExactly | ssdb/src/util/json.hpp:11930-11951 | a test passes if and only if the place exists and its value equals the given one, and never changes the document |
| JsonOps.ReplaceExactly | ssdb/src/util/json.hpp:11896-11901 | a replace succeeds if and only if the place exists, which then holds the value |
| JsonOps.RemoveExactly | ssdb/src/util/json.hpp:11807-11832 | a remove succeeds if and only if the parent exists and has the member or element, or is neither object nor array, and then nothing is removed |
| JsonOps.AddExactly | ssdb/src/util/json.hpp:11743-11803 | below an existing parent an add succeeds if and only if that is null, an object, or an array with a place for the token |
| JsonOps.DashAppends | ssdb/src/util/json.hpp:11776-11779 | the token - adds at the end of an array |
| JsonOps.WholeDocument | ssdb/src/util/json.hpp:11745-11749 | the whole document can be added, replaced and copied over, but neither removed nor moved |
| JsonOps.AddBelowMissing | ssdb/src/util/json.hpp:11751-11759 | below a missing member of an existing object an add, which section 4.1 of RFC 6902 forbids, succeeds if and only if that object is not the whole document and the tokens in between can be created, and then the value stands there |
| JsonOps.ParseExactly | ssdb/src/util/json.hpp:11845-11882 | an element of a patch is read as an operation if and only if it has the members that operation is written with; others are ignored |
| JsonOps.PatchPerforms | ssdb/src/util/json.hpp:11704-11962 | a patch written from a list of operations performs them one after the other, up to the first failure |
| JsonDiff.ComputeDiff | ssdb/src/util/json.hpp:11997-12127 | the recursive loops compute the sequence of operations |
| JsonDiff.ResultEqualsTarget | ssdb/src/util/json.hpp:11971-11976 | the patched source equals a target without NaN |
| JsonDiff.DiffThenPatch | ssdb/src/util/json.hpp:11971-11976 | patching succeeds if and only if no operation needs an array index beyond an int, and then yields the target if and only if the target holds no NaN |
| JsonDiff.LongArraysAreNotReached | ssdb/src/util/json.hpp:11971-11976 | a source and a target for which the patch throws |
| JsonDiff.NaNIsNotReached | ssdb/src/util/json.hpp:11971-11976 | a target that the patched source is not equal to |
| NumberTheory.Bezout | Cipher/rsa.go:8-33 | the greatest common divisor is a combination of its arguments and divides both |
| NumberTheory.GcdIsGreatest | Cipher/rsa.go:8-33 | and every common divisor divides it |
| NumberTheory.Fermat | Cipher/rsa.go:60-86 | a prime p divides x^p - x |
| Rsa.Inverse | Cipher/rsa.go:8-33 | for u >= 0 and v > 0 the result r is in [0, v) and u r is gcd(u, v) modulo v, with no overflow; what the loop gives for other arguments |
| Rsa.Digits | Cipher/rsa.go:40-50 | the first loop collects the binary digits of the exponent |
| Rsa.SquareAndMultiply | Cipher/rsa.go:36-58 | x^c mod n whenever no product exceeds an int |
| Rsa.RoundTrip | Cipher/rsa.go:60-86 | decrypting an encrypted m < p q gives m, for all distinct primes and all exponents inverse to each other modulo (p - 1)(q - 1) |
| Rsa.Exchange | Cipher/rsa.go:60-86 | the program's encryption and decryption loops give every text back |
| Rsa.ProgramKey | Cipher/rsa.go:61-66 | the constants of the program make a working key |
| JsonCbor.RoundTrip | ssdb/src/util/json.hpp:6563-6806 | decoding what was encoded gives the value in normal form and stops right after it, whatever stands before and after, for all size classes |
| JsonCbor.ToCbor | ssdb/src/util/json.hpp:6563-6806 | the loops append exactly the encoding |
| JsonCbor.FromCbor | ssdb/src/util/json.hpp:7113-7579 | the switch and its counting and open-ended loops decode as the recursive reading does, errors included |
| JsonCborWire.Reads | ssdb/src/util/json.hpp:7113-7579 | every well-formed encoding of a value, with heads of any width, open-ended or sized, with text in chunks, decodes to that value, whatever stands before and after |
| JsonCborWire.Written | ssdb/src/util/json.hpp:7113-7579 | whatever decodes is such an encoding of the value returned |
| JsonCborWire.DecodesExactly | ssdb/src/util/json.hpp:7113-7579 | a buffer of bytes decodes at a place to a value and an end if and only if the value is written there, in any of these forms, up to that end |
| JsonCborWire.OpenIsSized | ssdb/src/util/json.hpp:7392-7503 | an open-ended array or map decodes to the same value as the sized one of the same parts |
| JsonMsgpack.RoundTrip | ssdb/src/util/json.hpp:6317-6551 | the same for MessagePack, for sizes of up to 2^32 - 1 |
| JsonMsgpack.RoundTripExactly | ssdb/src/util/json.hpp:6317-6551 | an encoded value of byte strings is decoded to its normal form, anywhere in a buffer of bytes, if and only if all its sizes are at most 2^32 - 1 |
| JsonMsgpack.AloneExactly | ssdb/src/util/json.hpp:6317-6551 | the same of an encoding on its own |
| JsonMsgpack.ToMsgpack | ssdb/src/util/json.hpp:6317-6551 | the loops append exactly the encoding |
| JsonMsgpack.FromMsgpack | ssdb/src/util/json.hpp:6875-7095 | the dispatch and its loops decode as the recursive reading does, errors included |
| JsonMsgpackWire.Reads | ssdb/src/util/json.hpp:6875-7095 | every number and every size in any width that can hold it decodes to the value, signed widths in two's complement |
| JsonMsgpackWire.Written | ssdb/src/util/json.hpp:6875-7095 | whatever decodes is such an encoding of the value returned |
| JsonMsgpackWire.DecodesExactly | ssdb/src/util/json.hpp:6875-7095 | a buffer of bytes decodes at a place to a value and an end if and only if the value is written there, in some width, up to that end |
| JsonMsgpack.LongStringIsLost | ssdb/src/util/json.hpp:6453-6486 | a string of more than 2^32 - 1 bytes that starts with A gets no size and is read as the number 65 |
| JsonBinary.NormalEqual | ssdb/src/util/json.hpp:6335-6345 | the normal form, in which a non-negative signed number has become unsigned, equals the value |
| JsonBinary.ReadBack | ssdb/src/util/json.hpp:6291-6305 | the k bytes after a first byte read as the number that was written |
| JsonBinary.GetFromVector | ssdb/src/util/json.hpp:6291-6305 | the loop reads the k bytes as one number, most significant byte first, or fails at the end of the vector |
| BTreeShape.SplitFlat | algorithm/btree.c:56-85 | splitting a child leaves the keys in order as they were |
| BTreeShape.SplitShape | algorithm/btree.c:56-85 | splitting a full child keeps leaf depth and occupancy, also of a new root with one child |
| BTreeShape.InsertBelow | algorithm/btree.c:87-108 | inserting into the child the key belongs to inserts into the whole, and the order stays |
| BTree.SplitChild | algorithm/btree.c:56-85 | the shifting and copying loops make exactly that split, with one new node |
| BTree.InsertNonFull | algorithm/btree.c:87-108 | the keys in order grow by the key in its place; order, leaf depth, occupancy and counts are kept |
| BTree.Root.Insert | algorithm/btree.c:125-141 | the same from the root, which is copied and split when it is full, and then the depth grows by one |
| BTreeShape.PlacedCount | algorithm/btree.c:125-141 | putting a key in its place adds exactly that key |
| BTreeShape.PlacedSorted | algorithm/btree.c:125-141 | and keeps the order |
| LinkFraming.PacketRoundTrip | ssdb/src/net/link.cpp:77-185 | a printed packet, whose lines may each end in a line feed with or without a carriage return, is parsed back, with its exact length, if and only if its records stay within the size limit; a proper part of it yields nothing |
| LinkFraming.BlankLinesSkipped | ssdb/src/net/link.cpp:89-94 | empty lines before a packet are skipped and count towards the limit |
| LinkFraming.NoLengthIsBad | ssdb/src/net/link.cpp:124-132 | behind any records within the limit, a line that starts with no digit or is too long makes an error of the packet |
| LinkFraming.NoEolIsBad | ssdb/src/net/link.cpp:151-164 | and so does a body that is not followed by a line end |
| LinkFraming.RedisIsTold | ssdb/src/net/link.cpp:96-108 | a request in the Redis protocol is told by its asterisk, after any empty lines |
| LinkFraming.ErrorCloses | ssdb/src/net/link.cpp:42-49 | good packets before bytes that are an error are handed on, and the link is closed |
| LinkFraming.ChunkingInvariance | ssdb/src/net/link.cpp:32-60 | however the bytes of any packets are cut into reads, exactly those packets are handed on, in order, whatever byte lies behind the data of each read |
| LinkBuffer.Link.RecvReq | ssdb/src/net/link.cpp:77-185 | one call parses as specified and takes the bytes of the packet it returns and no others; it may also fail for want of memory when nothing is ready |
| LinkBuffer.Link.OnRead | ssdb/src/net/link.cpp:32-60 | the loop hands on every complete packet and keeps the rest, whatever lies behind the data at each call; running out of memory closes the link after them, or drops the read |
| LinkBuffer.Buffer.Nice | ssdb/src/util/bytes.cpp:19-27 | the live bytes move to the front unharmed, and the copy never overlaps |
| LinkBuffer.Buffer.Grow | ssdb/src/util/bytes.cpp:43-61 | a larger block with the same live bytes, or no change |
| LinkBuffer.Buffer.Append | ssdb/src/util/bytes.cpp:156-166 | the new bytes follow the live ones |
| LinkBuffer.Buffer.AppendRecord | ssdb/src/util/bytes.cpp:119-142 | a record as the parser expects it follows the live bytes |
| NsqHeap.TopIsLeast | nsq/src/nsqd/in_flight_pqueue.go:58-70 | the first message of a heap has the least priority |
| NsqInFlight.InFlightPqueue.Push | nsq/src/nsqd/in_flight_pqueue.go:15-27 | exactly x is added with all indices right, and a heap in order stays in order |
| NsqInFlight.InFlightPqueue.Pop | nsq/src/nsqd/in_flight_pqueue.go:29-43 | the first message leaves, with index -1; the others stay with right indices; if the heap was in order it stays so and the message had the least priority |
| NsqInFlight.InFlightPqueue.Remove | nsq/src/nsqd/in_flight_pqueue.go:45-56 | the message at place i leaves, with index -1; the others stay with right indices, and in order if they were |
| NsqInFlight.InFlightPqueue.PeekAndShift | nsq/src/nsqd/in_flight_pqueue.go:58-70 | the first message if it is due, a least one when the heap is in order, else nothing changes and the wait is told |
| NsqInFlight.Channel.StartInFlightTimeout | nsq/src/nsqd/channel.go:124-155 | from any state, map and heap hold the same messages afterwards; a heap in order stays so when the ID was not in flight; when it was, only the priority of the message changes |
| NsqInFlight.StartAll | nsq/src/nsqd/channel.go:124-155 | after any run of calls map and heap hold the same messages, the first of each ID, and a heap in order is still so if no call met its own message in flight |
| NsqInFlight.RestartedStaysInOrder | nsq/src/nsqd/channel.go:124-132 | after a restart, at any clock reading, the heap is in order if and only if the reading is no earlier than the parent's priority and no later than any child's |
| NsqInFlight.RestartBreaksOrder | nsq/src/nsqd/channel.go:124-155 | from a new channel two messages are started and one of them again: the heap is out of order if and only if the restart puts them out of their order, the first too late or the second too early |
| PbServer.MarkersAreApart | 6.824/src/pbservice/server.go:66-66 | operations whose uid has no underscore have different markers |
| PbServer.PBServer.PutAppend | 6.824/src/pbservice/server.go:55-88 | a server that is not primary in its own view, or has seen the operation, changes and forwards nothing; otherwise exactly the marker and the key are written, and the database is forwarded if there is a backup; what the reply is |
| PbServer.PBServer.ProcessForward | 6.824/src/pbservice/server.go:133-141 | every key of the forwarded database gets its value, and every other key keeps its own |
| PbServer.PBServer.Tick | 6.824/src/pbservice/server.go:105-119 | the new view is taken, and the database is forwarded exactly if the server was primary before and the view brings a new backup |
| PbServer.OnlyPrimariesAct | 6.824/src/pbservice/server.go:55-119 | in every system and step: an operation at a server that is not primary in its own view, or has seen it, changes nothing anywhere; a database changes only by an operation new to its primary, a forward or a restart; only a primary sends, its own database, to the backup of its view |
| PbServer.PerformedKeeps | 6.824/src/pbservice/server.go:55-88 | performing an operation of a safe family keeps values made of their histories, without repetition, and the markers of guarded operations |
| PbServer.MergedKeeps | 6.824/src/pbservice/server.go:133-141 | so does merging any database ever sent, however stale |
| PbServer.AtMostOnce | 6.824/src/pbservice/server.go:55-141 | in every run of a safe family no value of a user key holds an operation twice, and every guarded operation in it has its marker |
| PbServer.ProperIsSafe | 6.824/src/pbservice/client.go:111-134 | operations with a uid, to keys that are no markers, are a safe family in which all are guarded |
| PbServer.AtMostOnceExactly | 6.824/src/pbservice/server.go:55-141 | all runs of a family of operations apply each at most once if and only if every Append to a user key has a uid and no operation but a Put to that key can leave its marker empty |
| PbServer.BlanksAlone | 6.824/src/pbservice/server.go:66-81 | which operations leave a marker empty, told by their op, key, value and uid |
| PbServer.UnmarksExactly | 6.824/src/pbservice/server.go:66-81 | in every database an operation that was marked loses its mark exactly to a Put, not seen itself, of the empty value to its marker |
| PbServer.EmptyUidRepeats | 6.824/src/pbservice/server.go:66-71 | in every database an unseen Append sent twice enters the value twice if and only if its uid is empty |
| PbServer.MarkerKeyRepeats | 6.824/src/pbservice/server.go:66-81 | in every database an unseen Append, a write to a marker and the Append again enter the value twice if and only if that write is a Put, not seen itself, of the empty value to the Append's marker |
| ViewService.ViewServer.Ping | 6.824/src/viewservice/server.go:53-96 | the new state for each kind of ping, of which `PingMovesExactly`, `PrimaryLostExactly` and `BackupDroppedExactly` say what it means over the calls made |
| ViewService.ViewServer.Tick | 6.824/src/viewservice/server.go:118-141 | the new state after a tick, with unsigned differences |
| ViewService.Lineage | 6.824/src/viewservice/server.go:53-141 | views are numbered one after another, and each primary after view 1 was primary or backup before |
| ViewService.NeverBothAndNoUnderflow | 6.824/src/viewservice/server.go:53-141 | primary and backup never coincide, and the tick differences never wrap |
| ViewService.DeadViewStays | 6.824/src/viewservice/server.go:53-141 | a view above 0 without a primary never changes again |
| ViewService.DiesExactly | 6.824/src/viewservice/server.go:118-141 | a primary is lost for good if and only if a tick finds it five ticks late, its view acknowledged and no backup there |
| ViewService.PingMovesExactly | 6.824/src/viewservice/server.go:53-96 | in every run, which pings move the view and to which: told by the view, the ping, and whether the primary's last ping since it leads carried the view's number |
| ViewService.PrimaryLostExactly | 6.824/src/viewservice/server.go:118-141 | in every run, a tick takes a primary's place away if and only if the view is acknowledged and five ticks, this one included, have passed since the last call that was a sign of its life: a ping that gave it a place in the view, one as backup, or one as primary that is not of a restart; its backup then leads |
| ViewService.BackupDroppedExactly | 6.824/src/viewservice/server.go:118-141 | in every run, a tick drops a backup if and only if the view is acknowledged, the primary is not late in that sense, and the backup is |
| ViewService.GetsPrimaryExactly | 6.824/src/viewservice/server.go:53-141 | a run ever has a primary if and only if one of its first five calls is a ping |
| ViewService.LeftUnacknowledged | 6.824/src/viewservice/server.go:53-141 | in every run, a view that is not acknowledged is left if and only if its primary pings as restarted while there is a backup, and the backup leads the next view |
| ViewService.RestartLeavesUnacknowledged | 6.824/src/viewservice/server.go:68-76 | four pings from the start that leave view 2 of a and b, unacknowledged, for view 3 of b |
| MapReduce.DoMap | 6.824/src/mapreduce/mapreduce.go:194-232 | file r holds exactly the pairs whose key hashes to r, in emission order |
| MapReduce.DoReduce | 6.824/src/mapreduce/mapreduce.go:240-281 | each key of the files once, in order, with Reduce applied to its values in map-job then emission order |
| MapReduce.Merge | 6.824/src/mapreduce/mapreduce.go:285-322 | each key of the files once, in order, with the last of its values |
| MapReduce.PartitionValues | 6.824/src/mapreduce/mapreduce.go:213-231 | all values of a key go to one job, in order, and none to another |
| MapReduce.MergedIsGroupBy | 6.824/src/mapreduce/mapreduce.go:194-322 | merging the reduce outputs gives the group-by of everything emitted |
| MapReduce.DistributedIsGroupBy | 6.824/src/mapreduce/master.go:43-99 | whatever jobs fail, repeat or run late, once all reduce jobs are done the merged output is the group-by |
| MapReduce.Split | 6.824/src/mapreduce/mapreduce.go:142-180 | all lines in order, in at most nMap files: file f, but for the first, starts with the first line at which more than f chunks are written, and goes on until more than f + 1 are |

## Left out

Not modelled at all:

- Sockets, RPC dialing, event loops, threads, timers, logging, configuration and file access. Calls that may
  fail, memory and clocks are parameters; concurrent parts are state machines over their steps.
- `algorithm/tree.c` (parent-linked search tree), the Redis parser and replies (`link_redis.cpp`),
  `Max()` of Paxos, view `Get`, clerks: they would add easier members of kinds that are here.
- `algorithm/skip-list.c`, `btree_search`, JSON flatten and unflatten, generated scanners, empty stubs.
- Replication in mirror mode, and hashes on the slave.

Assumptions and simplifications:

- Paxos: every attempt has a number of its own; two attempts of one peer within one nanosecond would share
  one. The proposer's loop is a series of independent attempts.
- SSDB: LevelDB is an ordered map with atomic batches that commit or fail; `iter` of a client starts as NULL,
  which the constructor does not ensure; reads of the store and the slave's own writes succeed (a failed read of
  a value loses its entry: the code only logs it); the host is little-endian; sequence
  numbers stay below 2^64 - 1. Convergence is stated for a client that is not holding a fetched entry.
- SsdbImpl.SSDBImpl.Hset: does not model a counter that reaches the end of 64 bits, because it asks for less.
- SsdbImpl.SSDBImpl.HsetOne: asks for an open transaction and a sequence number below the end of 64 bits.
- SsdbReplica.BackendClient.Init: does not model the mirror argument.
- SsdbReplica.BackendClient.Sync: does not model mirror entries, and reads the log through a view of it,
  which QueueFindsLast and QueueFindsNext tie to the queue.
- SsdbWorker.Replication.Turn: no writer moves during a turn; NextKeeps and Converges interleave writers with the
  single steps that turns are made of.
- B-tree: the fixed arrays inside a node are sequences of that length in a field, replaced element by
  element; the old root that is copied and dropped is not freed, as in the source.
- JSON: two orders of evaluation that C++ leaves open are fixed (`from` is read before the target of a copy
  is created, the value of a test before its target). Memory limits are not modelled; a negative index in an
  unchecked access, which is undefined there, is an error of its own.
- JsonCbor.FromCbor: does not model half- and single-precision numbers, which the encoder never writes; they
  count as invalid.
- JsonMsgpack.FromMsgpack: does not model single-precision numbers, which the encoder never writes.
- JsonCbor.RoundTrip: sizes are below 2^64, as size_t demands.
- Link: `int` sizes do not overflow, and a length line that `atoi` cannot represent has an outcome of its own.
- Rsa.SquareAndMultiply: what an overflowing product yields is modelled, but nothing is claimed about it.
- Heap: the difference that PeekAndShift returns is unbounded, and so are clock readings.
- MapReduce: a job attempt is atomic and Map and Reduce are functions; every split file exists. JSON encoding
  of pairs is left out.
- View numbers and ticks do not reach the end of 64 bits.
