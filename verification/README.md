# simq: verified models of the hard parts

simq is an MQTT 5 broker written in Go. This project models the parts of it that hold state or
arithmetic one can get wrong, and proves what they keep:

- the subscription and the retained-message trie, as heap nodes changed in place, as a value, and as
  an index of a flat table that answers by section 4.7 of MQTT Version 5.0
  (`TopicLevels`, `TopicMatch`, `Paths`, `SubTrie`, `SNode`, `RetainTrie`, `RNode`, `MemTopics`), with
  what becomes of a message decoded into one held before (`HeldMessage`);
- the byte ring between network and processor with its stale cursors and cached gate, the cutting of
  the stream into packets, and an exact bound for never blocking both sides
  (`Bits`, `Bytes`, `Wrap`, `Ring`, `RingProgress`, `Buffer`, `Framing`, `Pipeline`, `SendRecv`);
- the growing acknowledgement queue and its write-through store
  (`AckSpec`, `AckRing`, `AckQueue`, `DbAckSpec`, `DbAckQueue`);
- the compaction of the subscription event log under concurrent appends and failing statements, the
  replay of that log into the weighted node map, and the lease lock that guards the compaction
  (`EventLog`, `Compaction`, `LogReplay`, `NodeWeights`, `NodeMap`, `Lease`);
- the codec of PUBLISH and SUBSCRIBE: lengths computed in advance, two writers, one reader, and
  exactly which messages come back (`Varint`, `Fields`, `Header`, `PublishSpec`, `Publish`,
  `SubscribeSpec`, `Subscribe`), joined with the ring in `MessageStream`;
- request merging, the send quota and the list of filters looked up for a shared topic
  (`ReqMerge`, `Quota`, `MatchTopics`).

Code that changes things in place is modelled by classes and loops proved against functions of the
values they stand for; what the code is for is then proved of those functions over all inputs and all
runs. Protocols are state machines whose steps are the atomic accesses, taken in any order.

Where the code does not do what its standard or its comments say, the model follows the code:

- an empty level of a topic or filter reads as `+`, and one at the end as none; a level led by `$` is
  refused anywhere in a topic or filter, where section 4.7.2 concerns the first level of topics, and a
  level such as `+$x` is taken for a name (`WalkReads`, `WalkIsSplit`). A filter is therefore answered as
  written exactly when it has no empty level (`FilterReadAsWritten`);
- publishing a topic with a separator at its end also reports the filters of the topic without it, and
  misses filters that end in `/+/#` there (`PublishDecidesStandard`, `PublishMeetsStandard`, `TrailingSeparator`);
- a message is retained by decoding it into the message held before, whose properties survive where the
  new packet has none; once a delivery has set the QoS, as one of lower QoS does before it sends, they are sent with the new payload
  (`ReceivedIsHeld`, `ChangedIsHeld`, `RunHolds`, `DeliveriesAgree`, `StaleFormatDelivered`);
- the compaction counts a key's events without the floor at zero that the replay has: when a node's
  unsubscribes outrun its subscribes, its writers running as tasks of a pool and one for every UNSUBSCRIBE
  whether or not it removed something, a merge can delete a live subscription (`MergeKeepsReplay`,
  `SurplusLoses`); no other key is affected (`MergeKeepsWeights`, `TableBuildsHistory`);
- removing a retained message also removes one held by an ancestor that leads nowhere else
  (`RemoveForgetsOne`, `RunAgreesIfHarmless`, `AncestorForgotten`);
- a filter whose cut fails half-way leaves empty nodes in the trie (`InsertLean`, `BareNodeLeft`);
- a message for an id still live passes exactly when it is a PUBLISH without DUP, the comment beside the
  test asking for the opposite, and the queued entry stays as it is (`AckQueue.Insert`);
- a PUBCOMP that comes before its PUBREC, and an acknowledgement for a message of the other QoS, part
  queues and store, as does a PUBLISH of QoS 2 repeated after its PUBREL while the finished entry is queued
  behind another (`EarlyCompBreaks`, `CrossAckBreaks`, `LateRepeatBreaks`);
- properties are recognised by their identifiers and their length is ignored, so that a payload or a
  first topic can be taken for a property (`PublishRoundTrip`, `PayloadTaken`, `SubscribeRoundTrip`, `FilterTaken`);
- a PUBLISH with an empty payload, which the standard allows, is not written (`Writable`,
  `PublishMessage.Encode`), and a field that ends one or two bytes early is an index out of range instead of
  an error (`CutShort`);
- an announced length of 2^32 and more is taken modulo 2^32 (`HeaderDecides`, `LengthWraps`);
- a subscription identifier of a PUBLISH from 168435455 on is not written, the standard allowing
  268435455 (`PublishRoundTrip`);
- the swap to zero by a refused request can lose credits that come between its accesses, though later
  swaps may make up for it (`ExactAtRest`, `NothingLost`); a quota fully paid back can then be refused
  for ever (`PaidBackYetRefused`);
- a holder whose lock has the new time already is told that it lost the lock, where the database counts
  changed rows (`LockAndLive`, `RenewedInVain`);
- after a panic of a merged request with channels the lock is never given back (`ReqMerge.Group.Finish`);
- a restarted holder waits for its own stale lock like any other node (`AttemptSucceeds`).

Strings stand for byte strings, one character for a byte. Errors are booleans or a small datatype where
only their presence decides anything; a slice or index out of range is an outcome of its own (`Panics`).

## Model

| member | source | states |
|---|---|---|
| TopicLevels.NextTopicLevel | corev5/v2/topics/impl/memtopics.go:596-651 | the scan with its state variable returns the first level and the rest, or fails, exactly as a description without a scan says: no wildcard but alone in its level, nothing behind '#', no leading '$' except behind a wildcard's first character |
| TopicLevels.CutReads | corev5/v2/topics/impl/memtopics.go:596-651 | a cut fails exactly for a first piece led by '$', with a wildcard behind its first character, with anything but '$' behind a leading wildcard, or a '#' with a separator behind it; else it gives the piece, '+' for an empty one, and what is behind the separator |
| TopicLevels.WalkReads | corev5/v2/topics/impl/memtopics.go:596-651 | for every string, cutting again and again fails if and only if some piece between separators is led by '$', carries a wildcard elsewhere than alone, or is a '#' that is not last; else it yields the pieces with each empty one read as '+', or dropped at the end |
| TopicLevels.WalkIsSplit | corev5/v2/topics/impl/memtopics.go:596-651 | it yields the levels of the standard if and only if the pieces can be cut and none is empty |
| TopicMatch.SectionExamples | corev5/v2/topics/impl/memtopics.go:387-432 | the examples of sections 4.7.1.2 and 4.7.1.3 match and fail to match as they say |
| TopicMatch.PublishDecidesStandard | corev5/v2/topics/impl/memtopics.go:387-432 | for every topic that can be cut and every stored filter, publishing reports the filter if and only if section 4.7 says it matches the topic's pieces, except that after a separator at the end it also reports the filters of the topic without it and misses those that go on with '+' and '#' |
| TopicMatch.PublishMeetsStandard | corev5/v2/topics/impl/memtopics.go:387-432 | publishing a topic meets section 4.7 for all stored filters if and only if the topic does not end in a separator |
| TopicMatch.TrailingSeparator | corev5/v2/topics/impl/memtopics.go:387-432 | topic a/ reports filter a and misses a/+/# |
| TopicMatch.RetainDecidesStandard | corev5/v2/topics/impl/memtopics.go:544-582 | for every filter that can be cut and all stored levels, rmatch reports them if and only if section 4.7 says that the levels of the filter's walk match |
| TopicMatch.FilterReadAsWritten | corev5/v2/topics/impl/memtopics.go:596-651 | those levels match the same topics without empty levels as the filter itself if and only if the filter has no empty level |
| TopicMatch.NodeDecidesStandard | corev5/v2/topics/topic_map_node/tmn.go:176-203 | the walk of the node map, which differs at an exhausted topic, reports a stored filter if and only if section 4.7 says it matches the levels of the topic's walk |
| TopicMatch.PublishAgreesWithRetain | corev5/v2/topics/impl/memtopics.go:387-582 | for every filter and topic that can be cut the publish-time and the subscribe-time direction decide the same, except exactly for a topic with a separator at its end and a filter that matches it only by a last '+' |
| SubTrie.UpsertGrants | corev5/v2/topics/impl/memtopics.go:263-275 | an insertion at its node gives one subscriber its new grant and leaves every other subscriber of the node alone, none listed twice |
| SubTrie.WithoutGrants | corev5/v2/topics/impl/memtopics.go:312-324 | deleting an entry in the middle of the slices takes out one subscriber and no other |
| SubTrie.InsertLookup | corev5/v2/topics/impl/memtopics.go:259-297 | an insertion changes exactly the pair of its walked filter and its subscriber, at any depth |
| SubTrie.RemoveLookup | corev5/v2/topics/impl/memtopics.go:301-353 | a removal takes out exactly that pair, or all pairs of the filter when no subscriber is given |
| SubTrie.RemoveSucceeds | corev5/v2/topics/impl/memtopics.go:301-353 | a removal of a subscriber succeeds if and only if the pair is stored |
| SubTrie.RemoveLean | corev5/v2/topics/impl/memtopics.go:344-350 | pruning on the way back leaves no node, save the one it started from, without subscribers and children |
| SubTrie.InsertLean | corev5/v2/topics/impl/memtopics.go:278-297 | an insertion leaves no bare node behind if and only if the filter can be cut to its end or its failed cut met only nodes already there |
| SubTrie.BareNodeLeft | corev5/v2/topics/impl/memtopics.go:278-297 | filter a/#b leaves the node of a, bare |
| SubTrie.TrieIsIndex | corev5/v2/topics/impl/memtopics.go:259-353 | after any run of subscriptions and removals, failed ones included, the trie answers every (filter, subscriber) lookup as the flat table does |
| SubTrie.HitsAreLowered | corev5/v2/topics/impl/memtopics.go:660-683 | each subscription reported after any run is the one the table holds for the pair, its QoS the published one or its own and above neither, nothing else in it changed |
| SubTrie.ReportIsStandard | corev5/v2/topics/impl/memtopics.go:387-432 | after any run, a report for a topic that can be cut lists a stored pair if and only if its filter, as it was walked, matches the topic's pieces in the sense of PublishDecidesStandard, each pair once; each hit is the stored subscription with the lower of published and granted QoS and is otherwise as stored |
| SNodes.SNode.SInsert | corev5/v2/topics/impl/memtopics.go:259-297 | the heap nodes hold afterwards the trie value the insertion specifies; existing nodes keep their places; fails exactly when the filter cannot be cut |
| SNodes.SNode.InsertHere | corev5/v2/topics/impl/memtopics.go:263-275 | the two slices of one node renewed or extended in step |
| SNodes.SNode.SRemove | corev5/v2/topics/impl/memtopics.go:301-353 | fails exactly when the specified removal is refused and then changes nothing; else the nodes hold its result |
| SNodes.SNode.RemoveHere | corev5/v2/topics/impl/memtopics.go:304-327 | at the end of the filter: one entry deleted in both slices, or both emptied |
| SNodes.SNode.PruneChild | corev5/v2/topics/impl/memtopics.go:344-350 | a child is unlinked exactly when it has neither subscribers nor children |
| SNodes.SNode.SMatch | corev5/v2/topics/impl/memtopics.go:387-432 | what is appended to the two slices of the caller are the entries of the matching filters below the node, each once, over all children in any map order |
| SNodes.SNode.MatchQos | corev5/v2/topics/impl/memtopics.go:660-683 | the node's entries appended in order, the pairs in the two slices being what is stored with the QoS the published or the granted one and above neither |
| MemTopicsManager.MemTopics.Subscribe | corev5/v2/topics/impl/memtopics.go:73-126 | refuses a QoS above 2 and a missing subscriber without change; else the operation joins the run the trie is the result of; 0x80 is returned exactly on an error, the requested QoS otherwise |
| MemTopicsManager.MemTopics.Unsubscribe | corev5/v2/topics/impl/memtopics.go:128-160 | for a given subscriber fails exactly when the flat table does not hold the pair |
| MemTopicsManager.MemTopics.Subscribers | corev5/v2/topics/impl/memtopics.go:165-200 | empties the result slices and, for any topic that can be cut, reports exactly the matching subscriptions of the whole run; the entry of the second slice is the subscription stored for that of the first, with the lower of published and granted QoS; a bad QoS or a topic led by '$' fails |
| MemTopicsManager.MemTopics.Retain | corev5/v2/topics/impl/memtopics.go:206-227 | for the name whose characters are the bytes of the topic, an empty payload clears that name, which fails exactly when there is no node to clear; any other message is stored under it, with the outcome of cutting, encoding and decoding |
| MemTopicsManager.MemTopics.Retained | corev5/v2/topics/impl/memtopics.go:229-234 | after any run of stores and gentle clears the messages appended are exactly those the flat table has under the topics the filter's levels match |
| RetainTrie.InsertMessage | corev5/v2/topics/impl/memtopics.go:452-499 | storing renews the message object of its own topic, by decoding the encoding into it, and no other |
| RetainTrie.RemoveLeaves | corev5/v2/topics/impl/memtopics.go:502-539 | a removal that reaches its node drops, with whatever message they hold, exactly the nodes on the way that lead to nothing else |
| RetainTrie.RemoveFinds | corev5/v2/topics/impl/memtopics.go:502-531 | a removal reaches a node if and only if the topic can be cut and leads to one |
| RetainTrie.RemoveForgetsOne | corev5/v2/topics/impl/memtopics.go:502-539 | a removal forgets only its own message if and only if no node it drops on the way holds one |
| RetainTrie.RunAgrees | corev5/v2/topics/impl/memtopics.go:452-539 | all along a run of stores and clears, failing ones included, the trie has the messages of a flat table if and only if each clear forgets only its own |
| RetainTrie.RunAgreesIfHarmless | corev5/v2/topics/impl/memtopics.go:452-539 | for runs whose stores can be cut and encoded: if and only if no clear takes a stored topic below another that leads to no third, as the table alone shows |
| RetainTrie.RunHolds | corev5/v2/topics/impl/memtopics.go:452-479 | for messages as received, or changed and not refused: all along a run every store ends well and leaves the very message stored if and only if each carries all that the one stored before it under its topic had set |
| RetainTrie.AncestorForgotten | corev5/v2/topics/impl/memtopics.go:534 | a run in which removing the message of a/b also loses that of a |
| RetainTrie.RetainReportIsStandard | corev5/v2/topics/impl/memtopics.go:544-592 | after any run of stores and gentle clears a filter that can be cut is answered with exactly the table's messages under the topics its levels match by section 4.7, each once |
| RetainTrie.RetainedByName | corev5/v2/topics/impl/memtopics.go:206-234 | after any run and the store of a message whose topic has the bytes of a name, asking for the name reports what the message stored there has become, and nothing else if the name has no wildcard |
| RetainTrie.ClearedByName | corev5/v2/topics/impl/memtopics.go:206-234 | after any run and a clear, asking for the same name without wildcards reports nothing |
| RNodes.RNode.RInsert | corev5/v2/topics/impl/memtopics.go:452-499 | the heap nodes hold the trie value of the insertion; it is refused or panics exactly when the cut, the encoding or the decoding into the held message does |
| RNodes.RNode.KeepMessage | corev5/v2/topics/impl/memtopics.go:454-479 | the bytes encoded are decoded into the message held or a new one; a refused encoding leaves it, a failed decoding leaves the fields read so far |
| RNodes.RNode.RRemove | corev5/v2/topics/impl/memtopics.go:502-539 | the heap nodes hold the trie value of the removal; a failed removal changes nothing |
| RNodes.RNode.RMatch | corev5/v2/topics/impl/memtopics.go:544-582 | the messages appended are those below the node that the filter reaches, each once |
| RNodes.RNode.AllRetained | corev5/v2/topics/impl/memtopics.go:584-592 | every message at and below a node is appended once |
| Bits.MaskIsRemainder | corev5/v2/service/buffer.go:140 | masking with a power of two less one is the remainder |
| Bits.PowerOfTwoTest | corev5/v2/service/buffer.go:636-638 | the bit test holds if and only if the number is a power of two, zero being none |
| Bits.RoundUpIsLeast | corev5/v2/service/buffer.go:640-651 | for 1 to 2^62 the shifts and ors yield a power of two, at least the number and the least such |
| Ring.StepKeepsInv | corev5/v2/service/buffer.go:199-608 | every step of producer or consumer, on cursors read earlier and a cached gate, keeps the ring invariant |
| Ring.UnreadUntouched | corev5/v2/service/buffer.go:529-608 | no step changes the buffer byte of any position still unread after it |
| Ring.EveryRunIsFifo | corev5/v2/service/buffer.go:199-608 | in every interleaving the cursors stay within one ring of each other, the gate does not pass the consumer, and what is delivered is a prefix of what was published |
| RingProgress.NeverBothBlocked | corev5/v2/service/buffer.go:125-159 | a packet of at most the ring less a read block plus one never finds receiver and processor both blocked |
| RingProgress.ProgressBound | corev5/v2/service/buffer.go:399-426 | some interleaving blocks both sides if and only if the packet exceeds that bound |
| Buffers.RingCopy | corev5/v2/service/buffer.go:618-634 | every source byte lands at its position around the ring and nothing else changes |
| Buffers.CheckSize | corev5/v2/service/buffer.go:70-99 | which sizes are refused, which one is made, and that the hint for a size that is no power of two is the least one above it |
| Buffers.Buffer.WaitForWriteSpace | corev5/v2/service/buffer.go:529-608 | waits if and only if the bytes would reach over unread ones; the cached gate never lets more through |
| Buffers.Buffer.Write | corev5/v2/service/buffer.go:292-314 | the bytes are appended to the stream, or nothing is when there is no room |
| Buffers.Buffer.WriteWait | corev5/v2/service/buffer.go:497-509 | the place handed out is free and contiguous, or the caller is told that it would wrap |
| Buffers.Buffer.WriteCommit | corev5/v2/service/buffer.go:511-526 | publishes just the bytes standing at the cursor |
| Buffers.Buffer.ReadFromOnce | corev5/v2/service/buffer.go:125-159 | one turn takes at most a block, never over the end of the ring, and appends what came |
| Buffers.Buffer.Read | corev5/v2/service/buffer.go:199-290 | over all its wrap branches the bytes read are the next unread ones and are consumed: as many as fit the caller, are unread, and lie before the end of the ring, whichever is least |
| Buffers.Buffer.ReadPeek | corev5/v2/service/buffer.go:332-394 | the next bytes without moving the cursor, put together when they wrap, and whether there were fewer than asked |
| Buffers.Buffer.ReadWait | corev5/v2/service/buffer.go:399-447 | exactly the asked number of unread bytes, or that it waits, or that the ring can never hold them |
| Buffers.Buffer.ReadCommit | corev5/v2/service/buffer.go:457-487 | moves over just that many unread bytes or over none |
| Framing.FramedPeek | corev5/v2/service/sendrecv.go:164-221 | a well-formed packet, whatever follows, is sized as itself |
| Framing.RefusedSizes | corev5/v2/service/sendrecv.go:164-221 | a size is refused if and only if the four bytes behind the first all carry continuation bits |
| Framing.PeekWithin | corev5/v2/service/sendrecv.go:164-221 | on any part of a packet the size loop waits for no byte behind the packet |
| Framing.PeekStable | corev5/v2/service/sendrecv.go:164-221 | a size once decided stays when more bytes arrive |
| Framing.OneCut | corev5/v2/service/sendrecv.go:164-263 | a stream is cut into well-formed packets in one way only |
| SendRecv.PeekMessageSize | corev5/v2/service/sendrecv.go:164-221 | type and total length from the header bytes there, one more byte for each continuation bit, at most five |
| SendRecv.PeekMessage | corev5/v2/service/sendrecv.go:227-263 | the whole packet, still uncommitted |
| SendRecv.NextPacket | corev5/v2/service/process.go:56-98 | whatever well-formed packet heads the unread bytes is what is taken out, and a failed turn takes nothing |
| SendRecv.WriteMessage | corev5/v2/service/sendrecv.go:313-394 | in place or through a buffer of its own, the encoding is appended to the stream or nothing is |
| Pipeline.PStepKeeps | corev5/v2/service/sendrecv.go:164-263 | every step of receiver or processor, at any of its points inside the peek loops, keeps the invariant of ring and processor together |
| Pipeline.Reframing | corev5/v2/service/sendrecv.go:164-263 | however the receiver splits a sequence of packets, of whatever size, in every interleaving the processor has taken out exactly a prefix of them, and stops only when the next one is larger than the ring |
| Pipeline.AllExtracted | corev5/v2/service/sendrecv.go:164-263 | when all is published and the processor waits, it has taken out every packet |
| Pipeline.NeverBothWait | corev5/v2/service/buffer.go:135-138 | with packets within the bound, receiver and processor never wait for each other |
| AckSpec.QueueIsFifo | corev5/v2/sessions/impl/mem_ackqueue.go:112-278 | in every run what Acked returned, pings aside, followed by what is queued, is the sequence of the messages taken up, each with its type, id, encoding and completion; only entries finished by PUBACK, PUBREL, PUBCOMP, SUBACK or UNSUBACK are returned, and no id is queued twice |
| AckSpec.EntriesAreAcked | corev5/v2/sessions/impl/mem_ackqueue.go:149-187 | in every run an entry has the type and the bytes of the last acknowledgement of its id since it was queued, and has neither as long as there was none |
| AckSpec.AckedTakesAll | corev5/v2/sessions/impl/mem_ackqueue.go:191-215 | Acked leaves no finished entry in front, and what it returns, pings aside, followed by what it leaves is what was queued |
| AckSpec.PingCycle | corev5/v2/sessions/impl/mem_ackqueue.go:191-215 | a ping is returned once, in front, after its PINGRESP and not before; a second PINGRESP changes nothing |
| AckRing.Lookup | corev5/v2/sessions/impl/mem_ackqueue.go:217-262 | the map leads from an id to its ring slot, for exactly the live ids |
| AckRing.Appended | corev5/v2/sessions/impl/mem_ackqueue.go:217-262 | an insertion at the tail slot appends to the queue and keeps the map exact |
| AckRing.Dropped | corev5/v2/sessions/impl/mem_ackqueue.go:264-278 | clearing the head slot drops the oldest entry and keeps the map exact |
| AckRing.Copied | corev5/v2/sessions/impl/mem_ackqueue.go:280-307 | the copies of grow, with and without wrap, unroll the ring in order |
| AckRing.Unrolled | corev5/v2/sessions/impl/mem_ackqueue.go:280-307 | the unrolled ring with its new map holds the same queue |
| AckQueues.AckQueue.constructor | corev5/v2/sessions/impl/mem_ackqueue.go:70-86 | an empty queue in a ring of a power of two that is large enough |
| AckQueues.AckQueue.Wait | corev5/v2/sessions/impl/mem_ackqueue.go:112-143 | the queue changes as the specification says for each message type and QoS, doubling when full; other types and a PUBLISH of QoS 0 fail; a message of a new id that encodes is appended with its type, its id, its encoding, no acknowledgement and its completion |
| AckQueues.AckQueue.Insert | corev5/v2/sessions/impl/mem_ackqueue.go:217-262 | appends exactly the messages of new ids that can be encoded, each with its type, id, encoding and completion and no acknowledgement yet; for a live id the queue stays, and only a PUBLISH without DUP is no error |
| AckQueues.AckQueue.RemoveHead | corev5/v2/sessions/impl/mem_ackqueue.go:264-278 | the oldest entry goes; an empty queue is an error |
| AckQueues.AckQueue.Grow | corev5/v2/sessions/impl/mem_ackqueue.go:280-307 | the ring doubles and the queue stays as it was |
| AckQueues.AckQueue.Ack | corev5/v2/sessions/impl/mem_ackqueue.go:149-187 | an acknowledgement in any order marks the entry of its id and no other |
| AckQueues.AckQueue.Acked | corev5/v2/sessions/impl/mem_ackqueue.go:191-215 | returns the ping, if answered, and the longest finished front of the queue, in order |
| DbAckSpec.StepInStep | corev5/v2/sessions/impl/db_ackqueue.go:83-143 | for the two outgoing queues of a client over one store a step keeps the stored messages those that wait for their first acknowledgement in either queue, and the second-phase ids those past PUBREC, if and only if it is in order: a message not taken up has an id that waits already, an acknowledgement is not for an id that waits in the other queue, and no PUBCOMP comes for an id still waiting for PUBREC when there is a second-phase table and no QoS 1 message has the id too |
| DbAckSpec.RunInStep | corev5/v2/sessions/impl/db_ackqueue.go:83-143 | queues and store are in step all along a run if and only if every step of it is in order |
| DbAckSpec.EarlyCompBreaks | corev5/v2/sessions/impl/db_ackqueue.go:109-143 | a run in which a PUBCOMP before its PUBREC puts them out of step |
| DbAckSpec.CrossAckBreaks | corev5/v2/sessions/impl/db_ackqueue.go:109-143 | a run in which a PUBACK for a message of QoS 2 releases its row while its queue goes on waiting |
| DbAckSpec.StoredAsSent | corev5/v2/sessions/impl/db_ackqueue.go:83-107 | in every run a stored outgoing message is the one last sent under its id |
| DbAckSpec.InStepInTune | corev5/v2/sessions/impl/db_ackqueue.go:83-143 | for the incoming queue of a client a step keeps the stored messages those that wait for their PUBREL if and only if a message received that is not taken up has an id that waits already |
| DbAckSpec.RelReleases | corev5/v2/sessions/impl/db_ackqueue.go:124-128 | a PUBREL leaves its id neither stored nor waiting and every other row, and both outgoing tables, as they were; when the id is not stored it changes nothing, else its entry is released |
| DbAckSpec.InRunInTune | corev5/v2/sessions/impl/db_ackqueue.go:83-143 | incoming queue and store are in step all along a run if and only if every step of it is so |
| DbAckSpec.StoredAsReceived | corev5/v2/sessions/impl/db_ackqueue.go:83-107 | in every run a stored incoming message is the one last received under its id |
| DbAckSpec.LateRepeatBreaks | corev5/v2/sessions/impl/db_ackqueue.go:83-107 | a run in which a PUBLISH of QoS 2 repeated after its PUBREL is stored while its finished entry is still queued behind another |
| DbAckQueues.OutQueues.constructor | corev5/v2/sessions/impl/mem_session.go:115-117 | the two outgoing queues of a session, over one store and client |
| DbAckQueues.OutQueues.Publish | corev5/v2/service/service.go:344-365 | a message waits in the queue of its QoS; queues and store are those of the run of operations so far |
| DbAckQueues.OutQueues.Acknowledge | corev5/v2/service/process.go:192-240 | each acknowledgement goes to the queue of its type and, unless it fails, what PUBACK or PUBCOMP finishes there is taken; fails exactly when the store does not take it or it cannot be encoded |
| DbAckQueues.InQueue.constructor | corev5/v2/sessions/impl/mem_session.go:116 | the incoming queue of a session over its store |
| DbAckQueues.InQueue.Publish | corev5/v2/service/process.go:480-490 | a message of QoS 2 waits for its PUBREL; queue and store are those of the run of operations so far |
| DbAckQueues.InQueue.Release | corev5/v2/service/process.go:214-232 | a PUBREL leaves its id unstored and, unless it fails, what is finished is taken; fails exactly when the id is not stored or the entry is found and the PUBREL cannot be encoded |
| DbAckQueues.DbAckQueue.Wait | corev5/v2/sessions/impl/db_ackqueue.go:83-107 | the message is stored and queued, in that order, for this client alone |
| DbAckQueues.DbAckQueue.Ack | corev5/v2/sessions/impl/db_ackqueue.go:109-143 | the store follows the acknowledgement first; if it cannot, the queue is not touched; fails exactly then, or when the entry is found but the acknowledgement cannot be encoded |
| DbAckQueues.DbAckQueue.Acked | corev5/v2/sessions/impl/db_ackqueue.go:145-147 | the memory queue releases, the store stays |
| DbAckQueues.MemSessionStore.CacheInflowMsg | cluster/store/memImpl/mem_session_store.go:133-143 | one client's incoming messages gain the message under its id |
| DbAckQueues.MemSessionStore.ReleaseInflowMsg | cluster/store/memImpl/mem_session_store.go:145-158 | an id that is not stored is an error; else it alone goes |
| DbAckQueues.MemSessionStore.CacheOutflowMsg | cluster/store/memImpl/mem_session_store.go:194-204 | one client's outgoing messages gain the message under its id |
| DbAckQueues.MemSessionStore.ReleaseOutflowMsg | cluster/store/memImpl/mem_session_store.go:220-233 | an id that is not stored is an error; else it alone goes |
| DbAckQueues.MemSessionStore.CacheOutflowSecMsgId | cluster/store/memImpl/mem_session_store.go:255-265 | the id joins the second-phase table, made when missing |
| DbAckQueues.MemSessionStore.ReleaseOutflowSecMsgId | cluster/store/memImpl/mem_session_store.go:281-290 | a missing table is the only error; the id goes |
| EventLog.MergeKeepsReplay | cluster/stat/colong/auto_compress_sub/factory.go:73-129 | for any events of a key, merging those from its first subscribe on changes no replay, whatever follows, if and only if their count never falls below zero or ends below it; it never makes a replay yield more |
| EventLog.ReplayIsNet | corev5/v2/topics/topic_map_node/tmn.go:119-143 | replaying events yields their net count if and only if the count never falls below zero, else more |
| EventLog.MergeRows | cluster/stat/colong/auto_compress_sub/mysql.go:158-185 | one merge statement, with any rows appended behind those it looked at, leaves of the key its leading unsubscribes and the merged row, or none, or all when the count is below zero; rows behind and rows of all other keys stay, whatever the order of any key |
| EventLog.MergeKeepsWeights | cluster/stat/colong/auto_compress_sub/mysql.go:158-185 | one merge keeps the key's weight under replay exactly when its events are mergeable, never raises it, and keeps that of every other key |
| EventLog.SurplusLoses | cluster/stat/colong/auto_compress_sub/factory.go:87-116 | a log of subscribe, unsubscribe twice, subscribe: its count is zero, all four rows are deleted and the subscription is lost |
| EventLog.AppendKeeps | cluster/stat/colong/db/mysql/server.go:182-218 | an appended event of any kind changes its own key's weight by one step and keeps what every table keeps |
| Compaction.TallyIsNet | cluster/stat/colong/auto_compress_sub/factory.go:92-114 | the count of the loop is the net count if and only if no row after the key's first stands for more than one subscription |
| Compaction.SubTable.Append | corev5/v2/service/process.go:643-662 | any event appended behind all rows; keys whose events are in order keep the same weight in table and history, others have no more in the table |
| Compaction.SubTable.GetSubs | cluster/stat/colong/auto_compress_sub/mysql.go:136-156 | nothing when there are fewer rows than the minimum; else the oldest rows, as many as the limit or as there are, whichever is less |
| Compaction.SubTable.DelSome | cluster/stat/colong/auto_compress_sub/mysql.go:158-174 | one row renumbered and the others of the key from its first subscribe on deleted, or on failure nothing; other keys and rows behind stay |
| Compaction.SubTable.DelPatAll | cluster/stat/colong/auto_compress_sub/mysql.go:176-185 | a cancelled key's rows from its first subscribe on deleted, or on failure nothing; other keys and rows behind stay |
| Compaction.Gather | cluster/stat/colong/auto_compress_sub/factory.go:92-106 | the inner loop counts the key's rows from its first subscribe on, collects the ids of all but the first and sets exactly their slots to nil |
| Compaction.Conclude | cluster/stat/colong/auto_compress_sub/factory.go:107-127 | with appends of others before it, the statement that fits the count, none when it is below zero, leaves the key merged unless it fails, and no other key changed |
| Compaction.Turn | cluster/stat/colong/auto_compress_sub/factory.go:74-128 | one turn of the outer loop, on a nil slot, a row that does not subscribe or a key to merge |
| Compaction.MergePass | cluster/stat/colong/auto_compress_sub/factory.go:73-129 | a whole pass over nothing when the table is short, else over its oldest rows up to the limit, with any appends and failures between statements: each key looked at is merged or, on a failure, as it was, with just the appended events behind; without failures, behind its leading unsubscribes, one row that carries the count is left of a key above zero, none of one at zero and all of one below, and the replay of a key's rows is kept if and only if they are mergeable; keys whose events are in order keep the weight of all events ever |
| LogReplay.ScanShareTopic | cluster/stat/colong/db/mysql/server.go:221-236 | the scan finds the share name up to the first separator behind the prefix |
| LogReplay.ShareTopicReads | cluster/stat/colong/db/mysql/server.go:221-236 | a non-empty share name and topic are read if and only if the bytes are $share/, the name without separator, a separator and the topic |
| LogReplay.ReplayAll | cluster/stat/colong/db/mysql/server.go:92-108 | the loop over all rows builds the node map that the run of their operations specifies |
| LogReplay.BuiltIsReplay | cluster/stat/colong/db/mysql/server.go:92-108 | from any table each counter built is what replaying the rows that count there yields |
| LogReplay.BuiltIsSum | cluster/stat/colong/db/mysql/server.go:182-218 | it is the sum of the net counts of the keys that count there, of which a lost separator can make several, if and only if together these never fall below zero |
| LogReplay.SameWeightsSameMap | cluster/stat/colong/db/mysql/server.go:92-108 | tables that give the keys of a place equal weights, none falling below zero, build the same counter there |
| LogReplay.MergeKeepsMap | cluster/stat/colong/auto_compress_sub/factory.go:107-127 | one merge changes no counter elsewhere, none of its place when all keys there are in order, and that of a key alone at its place exactly when its rows are not mergeable |
| LogReplay.TableBuildsHistory | cluster/stat/colong/db/mysql/server.go:92-108 | after any passes, appends and failures a node that starts from the table builds what the whole history builds, at each place whose own keys have their events in order |
| NodeWeights.InsertWeights | corev5/v2/topics/topic_map_node/tmn.go:75-112 | an insertion raises the counter of its path, share name and node by its number and no other; a wrongly cut topic raises none |
| NodeWeights.RemoveSucceeds | corev5/v2/topics/topic_map_node/tmn.go:116-172 | a removal with a share name succeeds if and only if that counter is not zero |
| NodeWeights.RemoveWeights | corev5/v2/topics/topic_map_node/tmn.go:116-172 | a successful removal takes one from that counter alone |
| NodeWeights.ClearWeights | corev5/v2/topics/topic_map_node/tmn.go:121-124 | a removal without a share name clears every counter of its topic and no other |
| NodeWeights.RunCounts | corev5/v2/topics/topic_map_node/tmn.go:75-172 | after any run every weight is what was added less what was taken or cleared, and no listed node has weight zero |
| NodeWeights.PickChooses | corev5/v2/topics/topic_map_node/tmn.go:259-282 | a draw chooses a node of the group; none is chosen only in an empty group |
| NodeWeights.DrawsAreWeight | corev5/v2/topics/topic_map_node/tmn.go:259-282 | of the draws from one to the total as many choose a node as it has weight |
| NodeMap.RSNode.SInsert | corev5/v2/topics/topic_map_node/tmn.go:75-112 | the heap nodes hold the value of the insertion |
| NodeMap.RSNode.SRemove | corev5/v2/topics/topic_map_node/tmn.go:116-172 | the heap nodes hold the value of the removal; a refused one changes nothing |
| NodeMap.RSNode.RemoveHere | corev5/v2/topics/topic_map_node/tmn.go:119-143 | at the end of the topic one weight lowered, the node taken out at zero, or all groups dropped |
| NodeMap.RSNode.DrawFrom | corev5/v2/topics/topic_map_node/tmn.go:260-278 | for a non-empty group the countdown appends one node, the one up to which the weights reach the number drawn and before which they do not; for an empty group nothing |
| NodeMap.RSNode.MatchNode | corev5/v2/topics/topic_map_node/tmn.go:259-282 | one node for each non-empty group of this node and of its '#', and none for others |
| NodeMap.RSNode.SMatch | corev5/v2/topics/topic_map_node/tmn.go:176-203 | over all children in any map order, one node is appended for each non-empty group under a filter below the node that the topic reaches, and none for others |
| NodeMap.MemTopicMapNode.Subscribe | corev5/v2/topics/topic_map_node/tmn.go:22-27 | the map changes by just that operation; fails exactly on a wrongly cut topic |
| NodeMap.MemTopicMapNode.Unsubscribe | corev5/v2/topics/topic_map_node/tmn.go:29-34 | the map changes by just that operation; with a share name fails exactly when the counter is zero |
| NodeMap.MemTopicMapNode.Subscribers | corev5/v2/topics/topic_map_node/tmn.go:36-41 | for a topic that can be cut, a group has one node drawn by weight if and only if it is not empty and its filter matches the levels of the topic's walk by section 4.7 |
| Lease.LeasesExclude | cluster/stat/colong/auto_compress_sub/mysql.go:55-103 | in every interleaving of clock readings, statements and time at most one node is protected by its last success |
| Lease.RenewedExcludes | cluster/stat/colong/auto_compress_sub/mysql.go:84-103 | after LockAndLive on reading T no other node acquires the lock in any run that ends by T + lockAddLive + lockTimeOut |
| Lease.AttemptSucceeds | cluster/stat/colong/auto_compress_sub/mysql.go:55-82 | an undisturbed attempt, even by the holder itself, succeeds if and only if there is no lock or its time is more than the time-out ago |
| Lease.LockTable.Turn | cluster/stat/colong/auto_compress_sub/mysql.go:55-82 | one turn of the loop with others before each statement: a row whose time is more than the time-out before the reading goes, and the insertion succeeds exactly where it meets none |
| Lease.LockTable.Lock | cluster/stat/colong/auto_compress_sub/mysql.go:55-82 | the retry loop returns only with the row its own and a protection of the time-out from its reading; undisturbed it takes the lock if and only if that is free or stale, and in its first turn |
| Lease.LockTable.LockAndLive | cluster/stat/colong/auto_compress_sub/mysql.go:84-103 | succeeds exactly when the row the others leave is its own and, where changed rows are counted, does not have the new time already; then it protects the node for the added time and the time-out |
| Lease.RenewedInVain | cluster/stat/colong/auto_compress_sub/mysql.go:84-103 | a state in which a protected holder renews and is told that it failed |
| Varints.VarintSize | corev5/v2/message/header.go:260-275 | the length of a variable byte integer by the bounds of the header |
| Varints.LbEncode | corev5/v2/message/util.go:22-43 | the two-phase loop writes the groups of seven bits, for all values up to 268435455 |
| Varints.PutUvarint | corev5/v2/message/message.go:458-467 | the same bytes as lbEncode |
| Varints.LbDecode | corev5/v2/message/util.go:47-68 | the loop with its multiplier reads as specified, to an index out of range when the bytes run out |
| Varints.LbRoundTrip | corev5/v2/message/util.go:47-68 | lbDecode recovers the value and its length whatever follows |
| Varints.VarintShortest | corev5/v2/message/util.go:22-68 | nothing shorter is read as the same value |
| Varints.GoRoundTrip | corev5/v2/message/header.go:240-242 | the reader of the remaining length recovers it whatever follows |
| Varints.GoReads | corev5/v2/message/header.go:240-242 | so it does every value of up to nine bytes |
| Fields.WriteLP | corev5/v2/message/message.go:396-414 | length-prefixed bytes written at a place of the array and nowhere else; fails exactly when too long or out of room |
| Fields.BufLP | corev5/v2/message/message.go:420-437 | the same bytes at the end of a buffer; fails exactly when too long |
| Fields.LPRoundTrip | corev5/v2/message/message.go:376-393 | length-prefixed bytes are read back whatever follows |
| Fields.CutShort | corev5/v2/message/message.go:376-393 | a field cut short by one or two bytes is an index out of range, by more an error |
| Fields.PropsLen | corev5/v2/message/util.go:254-268 | the length counted in advance is the number of bytes written, for odd lists too |
| Fields.WriteProps | corev5/v2/message/util.go:199-227 | user properties written to the array, an odd list as if an empty value followed |
| Fields.BufProps | corev5/v2/message/util.go:229-252 | the same bytes at the end of a buffer |
| Fields.ReadProps | corev5/v2/message/util.go:176-197 | the loop reads pairs as long as the next byte is their identifier |
| Fields.PropsRoundTrip | corev5/v2/message/util.go:176-227 | the written list is read back padded to pairs, up to a byte that is not the identifier |
| Fields.OddExample | corev5/v2/message/util.go:199-252 | three values are written as two properties, the last value empty |
| Fields.PropsRunOn | corev5/v2/message/util.go:176-197 | when the identifier follows the list the reader fails or takes more than was written |
| Headers.MsgLen | corev5/v2/message/header.go:260-275 | the chain of bounds gives the number of bytes the header takes |
| Headers.EncodeHeader | corev5/v2/message/header.go:167-191 | the header at the start of the array and nothing else; fails exactly without room or with type 0, whatever the flags |
| Headers.BufHeader | corev5/v2/message/header.go:193-208 | the same bytes at the end of a buffer |
| Headers.HeaderRoundTrip | corev5/v2/message/header.go:213-258 | a header in front of its body is read back with the remaining length |
| Headers.HeaderDecides | corev5/v2/message/header.go:213-258 | for every first byte and announced length below 2^63, a header is taken for PUBLISH if and only if its type is 3 and its QoS not 3, for SUBSCRIBE if and only if its first byte is 0x82, and the length, above zero, taken modulo 2^32, is at most 268435455 and no more than the bytes there |
| Headers.LengthWraps | corev5/v2/message/header.go:243-250 | a packet that announces 2^32 + 5 bytes is taken for one of 5 |
| PublishMessages.PublishMessage.Build | corev5/v2/message/publish.go:571-618 | remaining and property length computed in advance are those of the packet |
| PublishMessages.PublishMessage.Len | corev5/v2/message/publish.go:228-240 | the length of the packet the writers write |
| PublishMessages.PublishMessage.Encode | corev5/v2/message/publish.go:363-480 | fails exactly for neither topic nor alias, an empty payload or no room, then touching nothing; else the packet stands at the start of the array and the rest is as before |
| PublishMessages.PublishMessage.EncodeToBuf | corev5/v2/message/publish.go:482-569 | the same packet behind what the buffer held |
| PublishMessages.PublishMessage.Decode | corev5/v2/message/publish.go:242-361 | fails, panics or takes on the message that the field-by-field reading specifies, into whatever the message held; on failure the fields read so far stay |
| PublishSpec.PublishReceived | corev5/v2/message/publish.go:242-361 | a written packet read into any message gives every field written, leaves the others as they were and takes every byte unless the payload begins with the identifier of a property behind which none is set, or there is neither an alias, written or held, nor a valid topic; then it fails or delivers another payload |
| PublishSpec.PublishReuse | corev5/v2/message/publish.go:242-480 | decoding into a message that holds something recovers what was encoded if and only if, besides, it held nothing else for what is not written |
| PublishSpec.PublishRoundTrip | corev5/v2/message/publish.go:242-480 | decode after encode, into a fresh message, is the identity if and only if, besides, user properties are paired, the subscription identifier is under 168435455 and QoS 0 carries no packet id |
| PublishSpec.PayloadTaken | corev5/v2/message/publish.go:274-282 | a message without properties and with the payload 1 does not come back |
| PublishSpec.TopicChecked | corev5/v2/message/publish.go:242-361 | where there is no alias, in the packet or held, a written packet that its payload does not trap is read if and only if the topic is not empty and has neither of the wildcards, and never panics |
| PublishSpec.EmptyRefused | corev5/v2/message/publish.go:291-352 | an alias or subscription identifier of zero and an empty response topic, correlation or content type are errors where they are read |
| PublishSpec.RepeatRefused | corev5/v2/message/publish.go:275-352 | a property set whose identifier comes again is an error, whatever follows |
| PublishSpec.NumberCutShort | corev5/v2/message/publish.go:275-298 | a number cut short is an index out of range and leaves its field |
| PublishSpec.BytesCutShort | corev5/v2/message/publish.go:304-352 | bytes cut short by one or two are an index out of range and leave their field, by more an error that empties it |
| PublishSpec.TopicCutShort | corev5/v2/message/publish.go:242-257 | the same of the topic; the flags are set either way |
| PublishSpec.FailureKeepsPayload | corev5/v2/message/publish.go:242-361 | a reading that fails leaves the payload that was held |
| PublishSpec.WireExample | corev5/v2/message/publish.go:363-480 | the bytes of a message with every property |
| HeldMessage.DecodeOver | corev5/v2/message/publish.go:242-361 | any packet that a fresh message reads makes of a message that holds something the same with just the properties the packet does not carry, and the packet id at QoS 0, left as they were |
| HeldMessage.OverIsFresh | corev5/v2/message/publish.go:242-361 | the two readings are equal if and only if the held message had none of those set |
| HeldMessage.ReceivedIsHeld | corev5/v2/topics/impl/memtopics.go:452-479 | a received message is retained as it is if and only if the message held before had nothing set that its packet does not carry |
| HeldMessage.ChangedIsHeld | corev5/v2/topics/impl/memtopics.go:452-479 | a message encoded anew is retained as it is if and only if a reader with the fields held before recovers it |
| HeldMessage.KeptIsHeld | corev5/v2/topics/impl/memtopics.go:452-479 | for both kinds of message, by what a caller can see of the message held before |
| HeldMessage.FailedStoreLeaves | corev5/v2/topics/impl/memtopics.go:452-479 | a store whose bytes cannot be read leaves the message held with those bytes and its old payload |
| HeldMessage.DeliveredAs | corev5/v2/service/process.go:624-638 | a held message whose QoS is above the one granted is encoded from its fields already at its first delivery, any other sends the bytes stored; every later delivery encodes the fields held |
| HeldMessage.DeliveriesAgree | corev5/v2/service/process.go:624-638 | a delivery of the bytes stored and one of the fields held read the same if and only if the message held before had nothing set that the bytes do not carry |
| HeldMessage.StaleFormatDelivered | corev5/v2/service/process.go:624-638 | two messages stored for one topic, after which a subscriber gets the payload format of the first with the second |
| SubscribeMessages.SubscribeMessage.Build | corev5/v2/message/subscribe.go:547-565 | remaining and property length computed in advance are those of the packet |
| SubscribeMessages.SubscribeMessage.Len | corev5/v2/message/subscribe.go:333-345 | the length of the packet the writers write |
| SubscribeMessages.SubscribeMessage.Encode | corev5/v2/message/subscribe.go:424-493 | fails exactly without room, touching nothing; else the packet stands at the start of the array |
| SubscribeMessages.SubscribeMessage.EncodeToBuf | corev5/v2/message/subscribe.go:495-545 | the same packet behind what the buffer held |
| SubscribeMessages.SubscribeMessage.Decode | corev5/v2/message/subscribe.go:347-422 | fails, panics or takes on the message the reading specifies, filters appended to those held |
| SubscribeSpec.SubscribeReceived | corev5/v2/message/subscribe.go:347-422 | a written packet read into a fresh message gives every field and takes every byte when it has a filter whose length does not begin like a property |
| SubscribeSpec.SubscribeRoundTrip | corev5/v2/message/subscribe.go:347-493 | decode after encode is the identity if and only if the identifier is in range, user properties are paired, there is a filter, and the first one's length does not begin with 0x26, nor with 0x0B when there are no user properties |
| SubscribeSpec.FilterTaken | corev5/v2/message/subscribe.go:368-377 | a message whose one filter has 2816 to 3071 bytes does not come back |
| SubscribeSpec.EntryDecides | corev5/v2/message/subscribe.go:388-414 | a filter is taken with the options its byte spells if and only if QoS and retain handling are at most 2 and the reserved bits clear; else it is an error |
| SubscribeSpec.IdDecides | corev5/v2/message/subscribe.go:368-378 | a subscription identifier is an error if it is zero or comes twice, an index out of range if nothing follows it, and else read |
| SubscribeSpec.WireExample | corev5/v2/message/subscribe.go:424-493 | the bytes of a message with both properties and two filters |
| MessageStream.WireIsFramed | corev5/v2/service/sendrecv.go:164-221 | what the codec writes is a packet the size loop recognises |
| MessageStream.DecodeRecovers | corev5/v2/service/sendrecv.go:256-263 | a message made from the type and decoded is the one written exactly when its codec recovers it |
| MessageStream.MessagesArrive | corev5/v2/service/sendrecv.go:164-263 | in every interleaving, messages written, sent through the ring in any chunks and taken out are the messages sent, in order; the processor stops only at one larger than the ring |
| ReqMerge.Group.Do | redis/req_merge.go:62-92 | joins the registered call or registers a new one; no other call changes |
| ReqMerge.Group.DoChan | redis/req_merge.go:152-173 | joins the registered call, one more duplicate and one more channel, or registers a new one with the channel; no other call changes |
| ReqMerge.Group.FnEnds | redis/req_merge.go:132-150 | fn over and waiters let go while requests still join |
| ReqMerge.Group.Finish | redis/req_merge.go:99-131 | only the call's own key is freed, so that a newer call stays registered; when fn returned every channel of the call gets its result; a panic with channels keeps the lock |
| ReqMerge.Group.SendAll | redis/req_merge.go:121-130 | each channel is empty when its result is sent |
| ReqMerge.Group.Release | redis/req_merge.go:176-183 | the registered call is released and its key freed |
| ReqMerge.Group.OneLiveCall | redis/req_merge.go:62-183 | in every interleaving at most one call of a key is unfinished and unreleased |
| ReqMerge.Group.OneResult | redis/req_merge.go:111-130 | a channel has one result if and only if its call finished with fn having returned, and never more; it is fn's value and error with the call's number of duplicates |
| ReqMerge.Interleave | redis/req_merge.go:62-183 | any interleaving of the critical sections keeps the map exact and every channel served as due |
| Quota.GrantsBounded | corev5/v2/service/pipiline.go:141-165 | in every interleaving of the atomic steps the counter is at most quota plus credits minus grants, so that grants never exceed quota plus credits |
| Quota.GapIsLost | corev5/v2/service/pipiline.go:141-165 | in every interleaving the counter falls behind what is allowed, pending refused requests aside, by the sum over the swaps of what each puts back too little, and by nothing else |
| Quota.ExactAtRest | corev5/v2/service/pipiline.go:145-150 | with no call under way the counter is short by just that sum, which is never negative, and exact if and only if it is zero |
| Quota.NothingLost | corev5/v2/service/pipiline.go:145-150 | when no credit is given while a refused request is between its two accesses the counter is exact at rest, however requests overlap |
| Quota.PaidBackYetRefused | corev5/v2/service/pipiline.go:141-165 | a run after which everything granted is paid back and yet every later request is refused |
| Quota.RequestAlone | corev5/v2/service/pipiline.go:141-152 | an uninterrupted request is granted exactly when the counter is above zero |
| Quota.CreditAlone | corev5/v2/service/pipiline.go:159-165 | an uninterrupted credit adds one and takes the flag down |
| Quota.Sign.ReqQuota | corev5/v2/service/pipiline.go:141-152 | one call at a time the counter is exactly what is allowed and a request is granted exactly when that is above zero |
| Quota.Sign.AddQuota | corev5/v2/service/pipiline.go:159-165 | one call at a time a credit adds one to what is allowed |
| MatchTopics.MatchTopicS | redis/share_topic_redis.go:326-360 | for a wildcard-free topic of n levels, 2^n - 1 distinct filters: a string is among them if and only if it keeps the first level and matches under section 4.7 with '#' standing for one level or more; none for the empty topic |
| MatchTopics.PassCompletes | redis/share_topic_redis.go:331-350 | one turn takes the complete list for some levels to that for one level more |
| MatchTopics.Turn | redis/share_topic_redis.go:336-349 | the rotation that grows the list while it goes round renews each entry once and in order |

## Left out

- Sockets, goroutine pools, timers, configuration, logging, the JavaScript client and the database
  drivers: I/O or foreign calls. SQL statements are atomic steps on a table; the network is a parameter.
- `Close`, condition variables and time-outs of the ring: waiting is a step that is not enabled.
- The `$share` and `$sys` tries behind `memTopics`, near copies of the main trie: topics led to them are
  not operations of the model (`MemTopics.Subscribe` and `Unsubscribe` ask for that).
- Function-valued subscribers, compared by address in the source: a subscriber is an identity.
- Retained messages as objects shared between a node and the lists it was reported in: they are values
  here, so that the QoS set on them during a delivery shows in `HeldMessage` but not in the trie. The
  buffer a node encodes into is not kept apart from the bytes its message was decoded from.
- Capacity and aliasing of Go slices: a slice beyond its length is `Panics` though spare capacity might let
  it pass, and the node weights, shared with nothing, are values in their list.
- Widths of counters that the source never fills: cursors of the ring (int64), weights (uint32; sums are
  taken to fit), row numbers and quotas are unbounded numbers. Wrap-around is modelled where it matters:
  masks, the 32 bits of a remaining length, and the rounding up to a power of two.
- The overflow panic of the ack queue's `grow`, reached only beyond 2^62 entries.
- Rows of the event log with several topics and their hex form: a row carries one topic as it is.
- Compaction as seen by a node part-way through the log: the claim is for a replay from an empty map.
- A message of more than 268435455 bytes: `build` then leaves the previous remaining length in place.
- The cached bytes of a message decoded and not changed since, in the `PublishMessage` and
  `SubscribeMessage` classes: `HeldMessage` has them for retained messages.
- The packet id taken from a global counter when a message that needs one has none: such a message is
  outside `Fits`.
- Fields of a SUBSCRIBE message after a failed `Decode`, which its callers drop, and the byte count returned
  with a failure.
- The other packet types, their reason codes and properties: `MessageStream.Decode` fails on them.
- The check of a packet against the peer's maximum packet size in `writeMessage`.
- `UpQuota` and the rate limit of `Sign`.
- The values a waiting `Do` hands on after its call is over, and the panic it repeats.
- The scripts that use the filters of `matchTopicS`.
- End-to-end exactly-once delivery: the model stays at the queue.
- Compaction.SubTable.GetSubs: takes the count and the selection as one step; between them the table only grows.
- PublishMessages.PublishMessage.Encode: asks for a message within the limits of its fields, as do the other writers and lengths of the codec.
- NodeWeights.InsertWeights: asks for a number above zero, which the replay always adds; a zero would list a node without weight.
- SendRecv.PeekMessage: does not decode the packet, which `MessageStream` does on the bytes taken out.
- RetainTrie.RetainReportIsStandard: asks that the clears of the run are gentle, because a removal can lose an ancestor's message; `RunAgrees` and `RunAgreesIfHarmless` say exactly when they are.
- MemTopicsManager.MemTopics.Retain: asks for a message within the limits of its fields if it has to be encoded, as the writers of the codec do; a failing write of one over them could leave its bytes half-written. A changed will of QoS 1 or 2 without a packet id, which is encoded with one of a global counter, is not among them.
- DbAckQueues.DbAckQueue.Wait: leaves out the subscription that the store keeps for a SUBSCRIBE.
- RNodes.RNode.RInsert: asks for such a message too, as does KeepMessage.
- RNodes.RNode.KeepMessage: asks for such a message.
- AckQueues.AckQueue.constructor: asks for a size above zero; the source would make a ring of no slots, which its first insertion cannot use.
