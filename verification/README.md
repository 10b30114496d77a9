# Aulon, verified

A Dafny model of the Aulon message broker and proofs about it. Aulon is a single-node NATS-core
broker: one worker thread per shard, a wildcard subscription trie per worker, a lock-free inbox per
shard for publishes that cross shards, a streaming wire codec, and per connection an outbound buffer
drained by a writer task.

`dafny verify dfyconfig.toml` checks the whole project.

## How it is built

- **Cross-shard inbox** (`Inbox`, `InboxInvariant`, `InboxSteps`, `InboxTheorems`, `InboxPush`,
  `InboxDelivery`, `WakeOrder`). A step machine: any number of producers and one drain task, one
  step per atomic load, compare-exchange or store, per slot access and per eventfd operation. A run
  is an arbitrary schedule. Interleaving is sequentially consistent; the store-buffering pair
  "publish then load `head`" against "store `head` then load `seq`" needs that assumption. The
  eventfd is a counter: `wake` adds one and succeeds, a read waits for a non-zero value and clears
  it.
- **Wrapping counters** (`FixedWidth`, `LongSleeps`, `ShardInbox`). The same machine with W-bit
  counters, refined to the unbounded one over whole runs; and the ring as a class with masked indices,
  updated in place.
- **Cross-shard publishing** (`CrossShard`). All workers and inboxes together. A worker's own drain
  task may interleave with its pushes here, which allows more runs than one thread per shard does.
- **Subscription trie** (`Subject`, `Trie`, `SubscriptionTable`, `TableHistory`). The trie against a flat
  list of (pattern, subscription) pairs, for every history of subscribes and unsubscribes.
- **Wire codec** (`Bytes`, `Decimal`, `Wire`, `Parse`, `Emit`, `Codec`, `ParseOutcomes`) and the **reader
  loop** (`Reader`). `usize` is 64 bits wide; slices are at most `isize::MAX` long.
- **Outbound buffer and writer task** (`Outbound`, `Writer`). Tasks are cooperative, so one step is
  what runs between two awaits; a socket write may fail after any number of bytes.
- **Dispatch and registration** (`XorShift`, `Dispatch`, `Registration`). Connections are numbered
  without wrap-around beside the 32-bit ids they go by, so two of them can share an id.
- **End to end** (`EndToEnd`, `ClientStream`, `Fanout`, `Shard`, `Broker`, `BrokerTheorems`, `Provenance`,
  `QueueGroups`, `BrokerExample`). One publish on one shard; one connection up to what its client parses;
  one dispatch onto the tasks; one shard; the whole broker, in which all of the above runs together.
  A dispatch is one step, as no await interrupts it.
- **The broker and its clients** (`BackPressure`, `Clients`, `ClientRecords`, `ClientReplies`, `ClientCloses`,
  `ClientPressure`, `ClientMessages`). Clients send bytes; a reader greets its client, takes frames from
  the bytes, and each frame does what its branch of `handle_frame` does and is replied to; bytes that are
  no frame close the connection; a worker some shard refused tells the publisher.

Where something promised turned out not to hold unconditionally, the model keeps the code's behaviour,
shows the failing case and states exactly when the promise is kept: `TotalDrifts` with `TotalExactly`
(the subscription counter), `MovedSidRun` and `WrappedIdRun` with `RunsExactly` (a sid moved to another
subject, an id given out twice), `RefusedOnEmptyRing` and `StaleClaimOverwrites` with `RunExactly` (how
long a producer may sleep), `NothingBeforeWake` with `NothingWhileOwed` (docs/design/topology-sharding.md
wants the wake of a push that found the ring empty written before any later pop returns nothing),
`TwoShardsServeTwice` with `OncePerShard` (queue groups are served once per shard), `WaitsInVain` with
`WorthWaiting` (the parser asks for more bytes although none can complete the frame).
`CapacityOneOverwrites` shows why the ring has at least two slots.

The design notes and the code disagree in places, and the model follows the code: a closing writer
first sends what is pending (docs/design/fanout.md drops it), the group buckets are a list searched in
order and the pick is an xorshift (docs/design/subscription-trie.md has a map and another generator), and
a rejected subject gets its own error text.

## Model

| member | source | states |
|---|---|---|
| InboxSteps.Always | crates/aulon-core/src/shard_inbox.rs:119-175 | the ring invariant holds after every schedule: the slots hold exactly the window of cap positions from the first unfreed one, each free, claimed by one producer, or published with the logged value |
| InboxTheorems.FifoPrefix | crates/aulon-core/src/shard_inbox.rs:119-175 | what is popped and dispatched is a prefix of the claim order; at most cap claims are outstanding, cap + 1 from `head` while the consumer is between its two stores |
| InboxTheorems.OneWriter | crates/aulon-core/src/shard_inbox.rs:130-139 | a claimed position is written only by the producer that claimed it, into an empty slot, and no two producers write one slot |
| InboxTheorems.ReadsPublished | crates/aulon-core/src/shard_inbox.rs:162-170 | the slot being read holds the published value logged at `head`; nobody is writing or has reclaimed it |
| InboxTheorems.ConsumerNeverStuck | crates/aulon-server/src/main.rs:685-711 | the drain task waits for nothing but the eventfd and never reads an empty slot |
| InboxTheorems.FullExactly | crates/aulon-core/src/shard_inbox.rs:124-155 | Full is answered exactly when the local tail is current and cap positions are unfreed at the `seq` load; a stale tail never yields Full; a claim is attempted exactly on a free or unpublished position |
| InboxPush.PushAnswers | crates/aulon-core/src/shard_inbox.rs:119-156 | from every reachable state, a push with nobody else moving answers within seven steps: Ok iff fewer than cap positions are claimed and not freed, then published at the tail with a wake iff the inbox was empty; Full otherwise with nothing changed |
| InboxTheorems.NoStrandedFrame | crates/aulon-server/src/main.rs:600-616 | parked on an empty eventfd with nobody mid-push, everything accepted has been dispatched in claim order |
| InboxTheorems.DrainEmpties | crates/aulon-server/src/main.rs:688-710 | with producers between pushes the drain loop terminates and leaves nothing undispatched |
| InboxTheorems.CapacityOneOverwrites | crates/aulon-core/src/shard_inbox.rs:83-87 | with a single slot a run exists in which an unread value is about to be overwritten |
| InboxDelivery.Delivery | crates/aulon-core/src/shard_inbox.rs:137-148 | per producer: what is dispatched is an initial part of its accepted pushes and the one in flight, in push order, and exactly those once all is quiet |
| WakeOrder.NothingWhileOwed | crates/aulon-server/src/main.rs:604-611 | while a producer owes the wake for its push, a pop returns nothing exactly when the head has passed that push's position and the position at the head is not published |
| WakeOrder.OwedIsPopped | crates/aulon-server/src/main.rs:604-611 | so a wake still owed when a pop returns nothing is for a frame already popped and dispatched |
| WakeOrder.NothingBeforeWake | crates/aulon-server/src/main.rs:604-611 | a run in which a pop returns nothing while a wake is owed |
| FixedWidth.MaskIsMod | crates/aulon-core/src/shard_inbox.rs:126 | `& mask` is the remainder by the capacity |
| FixedWidth.SameSlot | crates/aulon-core/src/shard_inbox.rs:126 | a wrapped counter names the same slot as the unwrapped one |
| FixedWidth.SignedDiffExact | crates/aulon-core/src/shard_inbox.rs:120-128 | the signed difference of wrapped counters is the true one below half the range |
| FixedWidth.SignedDiffExactly | crates/aulon-core/src/shard_inbox.rs:120-128 | and for no other differences |
| FixedWidth.SignedDiffReversed | crates/aulon-core/src/shard_inbox.rs:120-128 | in the next half of the range its sign is reversed |
| FixedWidth.StepRefines | crates/aulon-core/src/shard_inbox.rs:119-175 | each W-bit step is enabled like, and is the wrapped image of, the unbounded one if its comparison comes out the same on wrapped counters |
| FixedWidth.RunRefines | crates/aulon-core/src/shard_inbox.rs:119-175 | with lags below half the range so are whole runs, across any number of wraps |
| FixedWidth.FixedWidthSafety | crates/aulon-core/src/shard_inbox.rs:119-175 | prefix order and no stranded frame, for the W-bit ring |
| FixedWidth.ShortSleepsSuffice | crates/aulon-core/src/shard_inbox.rs:120-128 | lags are bounded while no producer sleeps through half the counter range of claims |
| LongSleeps.LongSleepRefused | crates/aulon-core/src/shard_inbox.rs:126-155 | a producer whose slot moved on by at least half the range but not all of it is answered Full where the unbounded ring starts over |
| LongSleeps.SleepExactly | crates/aulon-core/src/shard_inbox.rs:126-155 | the W-bit `seq` load does what the unbounded one does iff the wrapped difference has the sign of the true one |
| LongSleeps.ClaimExactly | crates/aulon-core/src/shard_inbox.rs:131-144 | the compare-exchange does iff it fails spuriously or the shared tail has not come round to the local one |
| LongSleeps.WakeExactly | crates/aulon-core/src/shard_inbox.rs:140-141 | the load of the head does iff the head has not come round to the local tail |
| LongSleeps.StepExactly | crates/aulon-core/src/shard_inbox.rs:119-175 | any step of producers and drain task does iff its comparison is one of those |
| LongSleeps.RunExactly | crates/aulon-core/src/shard_inbox.rs:119-175 | over whole runs: the W-bit ring goes through the wrapped images of the unbounded states iff every step taken is such |
| LongSleeps.RefusedOnEmptyRing | crates/aulon-core/src/shard_inbox.rs:119-175 | a run of a two-slot ring with two-bit counters in which a producer that slept through one push and one pop is told the empty ring is full |
| LongSleeps.StaleClaimOverwrites | crates/aulon-core/src/shard_inbox.rs:131-139 | one in which a producer that slept through four pushes claims a position of a full ring and is about to overwrite an unread value |
| ShardInbox.NextPowerOfTwo | crates/aulon-core/src/shard_inbox.rs:87 | the least power of two not below n |
| ShardInbox.Ring.constructor | crates/aulon-core/src/shard_inbox.rs:86-101 | an empty ring of power-of-two capacity, at least 2 and less than twice the request |
| ShardInbox.Ring.Push | crates/aulon-core/src/shard_inbox.rs:119-156 | without interference: refused with the value handed back iff full, else appended, and was_empty is exact |
| ShardInbox.Ring.Pop | crates/aulon-core/src/shard_inbox.rs:161-175 | the oldest value, or None iff empty |
| ShardInbox.Ring.IsEmpty | crates/aulon-core/src/shard_inbox.rs:180-185 | true iff nothing is queued |
| ShardInbox.Ring.Drop | crates/aulon-core/src/shard_inbox.rs:188-193 | every queued value is taken out once, oldest first |
| CrossShard.SysAlways | crates/aulon-server/src/main.rs:580-621 | in every interleaving, each inbox has answered each worker for exactly its valid PUBs so far |
| CrossShard.Delivered | crates/aulon-server/src/main.rs:592-616 | between two shards: answers are the valid PUBs in order, dispatches are an initial part of the accepted ones, and exactly those once quiet |
| CrossShard.DeliveredPerConnection | crates/aulon-server/src/main.rs:592-616 | the same for each publishing connection; once quiet, all its valid PUBs have been dispatched iff none of its pushes was refused |
| CrossShard.OnlyValidFrames | crates/aulon-server/src/main.rs:587-590 | no invalid subject is ever in an inbox |
| CrossShard.PublishableExactly | crates/aulon-server/src/main.rs:587-590 | the PUBs dispatched and offered to other shards are exactly those to a non-empty subject all of whose dot-separated pieces are non-empty and no wildcard |
| CrossShard.NothingFromItself | crates/aulon-server/src/main.rs:600-603 | a worker never pushes to its own inbox |
| CrossShard.NothingFromOthers | crates/aulon-server/src/main.rs:600-603 | nobody but a worker pushes to an inbox |
| Subject.JoinSplit | crates/aulon-core/src/subscription.rs:294 | splitting at dots loses nothing and leaves no dot in a piece |
| Subject.SplitUnique | crates/aulon-core/src/subscription.rs:294 | no other dot-free pieces join to the subject |
| Subject.SubscriberAccepts | crates/aulon-core/src/subscription.rs:289-311 | a subject is accepted iff non-empty with no empty piece and `>` only as its last piece; its pattern has one token per piece, a wildcard for `*` and `>` and the piece itself otherwise; which error the others get |
| Subject.SubscriberInjective | crates/aulon-core/src/subscription.rs:289-311 | different subjects have different patterns |
| Subject.SubscriberWellFormed | crates/aulon-core/src/subscription.rs:289-311 | an accepted pattern is non-empty, has `>` only at the end, and its literals are non-empty and not wildcards |
| Subject.PublisherAccepts | crates/aulon-core/src/subscription.rs:313-328 | a publish subject is accepted iff non-empty with only plain pieces, and its tokens are its pieces |
| Subject.PublisherRejects | crates/aulon-core/src/subscription.rs:313-328 | the first piece that is empty or a wildcard decides the error |
| Subject.PublisherIsSubscriber | crates/aulon-core/src/subscription.rs:289-328 | what a publisher may use, a subscriber may, with no wildcard read into it |
| Subject.ParseSubscriberSubject | crates/aulon-core/src/subscription.rs:289-311 | the two loops give the specified tokens or the specified error |
| Subject.ParsePublisherSubject | crates/aulon-core/src/subscription.rs:313-328 | the loop gives the pieces or the error of the first offending piece |
| Trie.InsertBucket | crates/aulon-core/src/subscription.rs:125-157 | inserting appends to the bucket of that pattern and changes no other |
| Trie.RemoveBucket | crates/aulon-core/src/subscription.rs:218-287 | removing filters the bucket of that pattern and changes no other, pruning included |
| Trie.InsertCanonical | crates/aulon-core/src/subscription.rs:125-157 | insertion keeps: no empty node, no literal child keyed as a wildcard |
| Trie.RemoveCanonical | crates/aulon-core/src/subscription.rs:240-263 | removal with pruning keeps it too |
| Trie.CanonicalUnique | crates/aulon-core/src/subscription.rs:80-95 | canonical tries with the same buckets are identical |
| SubscriptionTable.WalkIsBuckets | crates/aulon-core/src/subscription.rs:197-216 | the match walk concatenates the buckets of the matching patterns, in order |
| SubscriptionTable.PatternsOnce | crates/aulon-core/src/subscription.rs:197-216 | those patterns are exactly the ones matching under the `*` and `>` rules, each once |
| SubscriptionTable.CoversMatches | crates/aulon-core/src/subscription.rs:197-216 | on the bytes of two subjects: piece by piece equal or `*`, with `>` standing for one piece or more |
| SubscriptionTable.MatchRefines | crates/aulon-core/src/subscription.rs:186-216 | a trie representing a list emits exactly the list's matches, as a multiset |
| SubscriptionTable.InsertRepresents | crates/aulon-core/src/subscription.rs:123-161 | subscribe appends one entry to the list represented |
| SubscriptionTable.RemoveRepresents | crates/aulon-core/src/subscription.rs:166-179 | unsubscribe filters the list represented |
| TableHistory.EveryHistory | crates/aulon-core/src/subscription.rs:98-179 | after any history the trie represents the flat list and is canonical |
| TableHistory.TrieRefinesList | crates/aulon-core/src/subscription.rs:186-216 | after any history a publish emits exactly the matching stored entries, each once |
| TableHistory.TrieServesSubjects | crates/aulon-core/src/subscription.rs:98-216 | the same on bytes alone: exactly the subscriptions made and not unsubscribed since whose subject covers the published one, each as often as made |
| TableHistory.SameListSameTrie | crates/aulon-core/src/subscription.rs:98-179 | the trie is determined by the entries, bucket order and pruning included |
| TableHistory.UnsubscribeLocal | crates/aulon-core/src/subscription.rs:166-179 | exactly the entries of (conn, sid) under that subject go; true iff there was one; false leaves the table identical |
| TableHistory.PublishAfterUnsubscribe | crates/aulon-core/src/subscription.rs:166-216 | later publishes lose exactly the removed entries |
| TableHistory.ExactUndo | crates/aulon-core/src/subscription.rs:123-179 | subscribing a fresh (conn, sid) and unsubscribing it restores the identical table |
| TableHistory.TotalAccounted | crates/aulon-core/src/subscription.rs:231-236 | on every history the counter exceeds the stored entries by the removals beyond one per unsubscribe |
| TableHistory.TotalExactly | crates/aulon-core/src/subscription.rs:231-236 | the counter is exact iff no unsubscribe found its (conn, sid) listed more than once under its subject |
| TableHistory.TotalExact | crates/aulon-core/src/subscription.rs:111-115 | in particular if no (conn, sid) is ever listed twice under a subject |
| TableHistory.TotalDrifts | crates/aulon-core/src/subscription.rs:275-282 | a (conn, sid) subscribed twice and unsubscribed once leaves the counter at 1 with nothing stored |
| TableHistory.SubscriptionTrie.constructor | crates/aulon-core/src/subscription.rs:107-109 | an empty table |
| TableHistory.SubscriptionTrie.Subscribe | crates/aulon-core/src/subscription.rs:123-161 | performs the subscribe on the table iff the subject is one a subscriber may use, else reports the subject error and changes nothing |
| TableHistory.SubscriptionTrie.Unsubscribe | crates/aulon-core/src/subscription.rs:166-179 | performs the unsubscribe; true iff an entry was there |
| TableHistory.SubscriptionTrie.ForEachMatch | crates/aulon-core/src/subscription.rs:186-194 | hands out exactly the subscriptions listed whose subject covers the published one, or reports the subject error iff it may not be published to |
| Decimal.DecimalRoundTrip | crates/aulon-proto/src/emit.rs:200-227 | printing then parsing is the identity on all of u64 |
| Decimal.TwentyDigits | crates/aulon-proto/src/emit.rs:13-14 | 20 digits suffice |
| Decimal.DigitsShortest | crates/aulon-proto/src/parse.rs:279-305 | the printed form is no longer than any digits read |
| Decimal.ParseU64 | crates/aulon-proto/src/parse.rs:279-305 | the checked loop accepts exactly non-empty digit strings whose value fits, and returns that value |
| Parse.LineEndBounds | crates/aulon-proto/src/parse.rs:217-226 | the line end is the first CRLF, or there is none |
| Parse.FindCrlf | crates/aulon-proto/src/parse.rs:217-226 | the loop finds it |
| Parse.TrimLeadingSpaces | crates/aulon-proto/src/parse.rs:241-247 | the loop drops the leading blanks |
| Parse.TokenIter.constructor | crates/aulon-proto/src/parse.rs:254-258 | all the line's tokens are ahead |
| Parse.TokenIter.Next | crates/aulon-proto/src/parse.rs:263-276 | hands out the next token of the line, or None iff there is none left |
| Parse.RunParseSub | crates/aulon-proto/src/parse.rs:95-121 | the SUB parser agrees with the token-count specification |
| Parse.RunParseUnsub | crates/aulon-proto/src/parse.rs:123-143 | the UNSUB parser agrees, reporting a bad count before an extra token |
| Parse.ConsumePayload | crates/aulon-proto/src/parse.rs:310-320 | the payload iff it and its terminator are there and the sizes do not overflow |
| Parse.NeedMoreOrMissingCrlf | crates/aulon-proto/src/parse.rs:322-339 | why there is no payload |
| Parse.RunParsePub | crates/aulon-proto/src/parse.rs:145-176 | the PUB parser agrees with its specification |
| Parse.RunParseMsg | crates/aulon-proto/src/parse.rs:178-213 | the MSG parser agrees with its specification |
| Parse.RunParseFrame | crates/aulon-proto/src/parse.rs:29-50 | the frame parser agrees with its specification |
| Codec.Stable | crates/aulon-proto/src/parse.rs:29-50 | a frame or an error is not changed by appended bytes |
| Codec.Local | crates/aulon-proto/src/parse.rs:29-50 | a frame depends only on the bytes it consumes, at least two |
| Codec.RoundTrip | crates/aulon-proto/src/emit.rs:20-46 | a legal frame's encoding, with anything after it, parses to the frame and consumes the encoding |
| Codec.ParsedIsLegal | crates/aulon-proto/src/parse.rs:64-213 | whatever parses is legal |
| Codec.Normalises | crates/aulon-proto/src/parse.rs:228-277 | anything that parses re-encodes to bytes that parse to the same frame |
| Codec.RoundTripExactly | crates/aulon-proto/src/emit.rs:20-46 | a frame survives the wire iff it is legal |
| ParseOutcomes.TokensExactly | crates/aulon-proto/src/parse.rs:228-277 | the tokens of a line are its words: whatever blanks lie before, between and after them, and nothing else |
| ParseOutcomes.HasPieces | crates/aulon-proto/src/parse.rs:29-36 | every buffer with a CRLF has a complete first line: a verb, at most one blank, a rest, and the bytes after it |
| ParseOutcomes.VerbTexts | crates/aulon-proto/src/parse.rs:36-47 | the ten verbs |
| ParseOutcomes.SimpleOutcome | crates/aulon-proto/src/parse.rs:54-93 | what a complete line without fields gives: the frame, or BadHeader exactly for a rest where none belongs or none where one does; UnknownVerb exactly for any other verb |
| ParseOutcomes.SubscriptionOutcome | crates/aulon-proto/src/parse.rs:95-143 | which frame or error every SUB and UNSUB line gives, by its words |
| ParseOutcomes.PublicationOutcome | crates/aulon-proto/src/parse.rs:145-213 | which frame or error every PUB and MSG line gives, by its words and the bytes after it |
| ParseOutcomes.NeedMoreExactly | crates/aulon-proto/src/parse.rs:18-20 | more is asked for iff there is no CRLF yet or a well-formed PUB or MSG line announces more payload than is there |
| ParseOutcomes.WorthWaiting | crates/aulon-proto/src/parse.rs:322-339 | bytes to come can then complete the frame unless all the payload and one wrong byte after it are there; in that case any byte more is an error |
| ParseOutcomes.WaitsInVain | crates/aulon-proto/src/parse.rs:322-339 | such a buffer |
| ParseOutcomes.FailedForGood | crates/aulon-proto/src/parse.rs:21-23 | no bytes make a frame of a buffer that failed |
| ParseOutcomes.MsgForm | crates/aulon-proto/src/emit.rs:145-168 | the bytes of a MSG |
| ParseOutcomes.PubForm | crates/aulon-proto/src/emit.rs:123-143 | the bytes of a PUB |
| ParseOutcomes.SubForm | crates/aulon-proto/src/emit.rs:90-121 | the bytes of a SUB and of an UNSUB |
| ParseOutcomes.TextForm | crates/aulon-proto/src/emit.rs:48-88 | the bytes of the other frames |
| Emit.FillDigits | crates/aulon-proto/src/emit.rs:200-212 | the digit loop stays within 20 bytes and yields the digits, last first |
| Emit.WriteAll | crates/aulon-proto/src/emit.rs:172-187 | the piece is written iff it fits, after what was written and before the old rest; else the error says where it would have ended and the buffer is untouched |
| Emit.WriteByte | crates/aulon-proto/src/emit.rs:189-198 | the same for one byte |
| Emit.WriteDecimal | crates/aulon-proto/src/emit.rs:200-227 | the same for a decimal |
| Emit.SubInOrder | crates/aulon-proto/src/emit.rs:90-108 | the writes of SUB, one after another, are its encoding |
| Emit.UnsubInOrder | crates/aulon-proto/src/emit.rs:110-121 | the same for UNSUB |
| Emit.PubInOrder | crates/aulon-proto/src/emit.rs:123-143 | the same for the header line of PUB |
| Emit.MsgInOrder | crates/aulon-proto/src/emit.rs:145-168 | the same for the header line of MSG |
| Emit.EmitBare | crates/aulon-proto/src/emit.rs:48-61 | PING, PONG, +OK: succeeds iff the encoding fits, then the buffer is the encoding and its old rest |
| Emit.EmitErr | crates/aulon-proto/src/emit.rs:63-70 | the same for -ERR |
| Emit.EmitInfo | crates/aulon-proto/src/emit.rs:72-79 | the same for INFO |
| Emit.EmitConnect | crates/aulon-proto/src/emit.rs:81-88 | the same for CONNECT |
| Emit.EmitSub | crates/aulon-proto/src/emit.rs:90-108 | the same for SUB |
| Emit.EmitUnsub | crates/aulon-proto/src/emit.rs:110-121 | the same for UNSUB |
| Emit.EmitPub | crates/aulon-proto/src/emit.rs:123-143 | the same for PUB |
| Emit.EmitMsg | crates/aulon-proto/src/emit.rs:145-168 | the same for MSG |
| Emit.EmitFrame | crates/aulon-proto/src/emit.rs:20-46 | the same for any frame |
| Reader.FramesSplit | crates/aulon-server/src/main.rs:399-418 | reading part of a stream and then the rest handles the frames of the whole |
| Reader.ChunkingIndependence | crates/aulon-server/src/main.rs:379-422 | every split of a stream handles the same frames and stops for the same reason, unless the size guard fires or another task closes the connection |
| Reader.ClosedFromOutside | crates/aulon-server/src/main.rs:403-421 | a close by another task while a read is awaited ends the loop with that read, after the first frame then in the buffer, if there is one, and no other; what was handled is an initial part of the stream's frames |
| Reader.GuardSilent | crates/aulon-server/src/main.rs:389-397 | it never fires when reads fit the read buffer and everything framed is at most MAX_FRAME_SIZE less one read buffer |
| Reader.OversizeExactly | crates/aulon-server/src/main.rs:389-397 | it fires exactly when what has accumulated is over MAX_FRAME_SIZE |
| Reader.HandleBuffered | crates/aulon-server/src/main.rs:398-418 | the inner loop handles the complete frames at the head and keeps the rest |
| Reader.ReaderLoop | crates/aulon-server/src/main.rs:379-422 | the outer loop does so over all reads, each of which may find the connection closed |
| Reader.ReadStream | crates/aulon-server/src/main.rs:379-422 | and this is so with the frame parser |
| Outbound.DrainSplits | crates/aulon-core/src/connection_state.rs:179-195 | a drain splits the pending bytes into handed out and still pending, in order |
| Outbound.ConnectionState.constructor | crates/aulon-core/src/connection_state.rs:85-101 | an empty open buffer of the given capacity |
| Outbound.ConnectionState.Enqueue | crates/aulon-core/src/connection_state.rs:128-145 | appends in place, or closes as slow consumer measured from the tail, or refuses when closing |
| Outbound.ConnectionState.MarkClose | crates/aulon-core/src/connection_state.rs:149-154 | the first reason stays, the writer is notified |
| Outbound.ConnectionState.DrainInto | crates/aulon-core/src/connection_state.rs:179-195 | copies out the next pending bytes, resets the cursors on a full drain, leaves the rest of the destination |
| Writer.Always | crates/aulon-server/src/main.rs:445-483 | the connection invariant holds on every run of enqueues, closes and writer turns |
| Writer.SocketStream | crates/aulon-server/src/main.rs:447-481 | the socket carries the accepted enqueues joined in order; at exit all of them and then only the farewell of the first reason |
| Writer.SlowConsumerExactly | crates/aulon-core/src/connection_state.rs:132-144 | an enqueue closes the connection iff the bytes accepted since the last full drain plus its own exceed the capacity |
| Writer.WriterNeverSleepsOnWork | crates/aulon-core/src/connection_state.rs:164-168 | a parked writer with pending bytes or a pending close has a stored permit |
| Writer.ClosingTurn | crates/aulon-server/src/main.rs:451-481 | once closing, every writer turn is possible and brings the exit nearer |
| Writer.ClosedForGood | crates/aulon-core/src/connection_state.rs:128-131 | along every continuation of a run, nothing is accepted after the first reason to close and that reason stays |
| Writer.ClosingFinishes | crates/aulon-server/src/main.rs:451-481 | with successful writes the writer exits, having sent everything accepted and the farewell of the first reason |
| Dispatch.GroupsInhabited | crates/aulon-server/src/main.rs:641-655 | a group is a bucket iff it has a matching member |
| Dispatch.UngroupedCount | crates/aulon-server/src/main.rs:641-655 | an ungrouped match is collected as often as it matched |
| Dispatch.MembersCount | crates/aulon-server/src/main.rs:641-655 | a match of a group is in its bucket as often as it matched |
| Dispatch.MsgEncoderEncodes | crates/aulon-server/src/main.rs:659-662 | each target is sent a MSG with the subject, reply subject and payload published and its own sid |
| Dispatch.Collect | crates/aulon-server/src/main.rs:636-656 | ungrouped matches in order, one bucket per distinct group with its matches in order |
| Dispatch.OnceHere | crates/aulon-server/src/main.rs:667-676 | a selection serves a group once, and one of its matching members, iff there is one |
| Dispatch.OncePerShard | crates/aulon-server/src/main.rs:667-676 | over all shards' selections a group is served once per shard holding a matching member, so exactly once iff exactly one shard does |
| Dispatch.TwoShardsServeTwice | crates/aulon-server/src/main.rs:667-676 | two shards with one member each: both are served |
| Dispatch.EachItsShare | crates/aulon-server/src/main.rs:659-676 | every connection is offered its own targets in selection order, and nothing else |
| Dispatch.ShareAppended | crates/aulon-server/src/main.rs:663-665 | with room, exactly those bytes are appended |
| Dispatch.Worker.PickIndex | crates/aulon-server/src/main.rs:158-174 | the next xorshift state reduced to an index within the bucket; a non-zero state stays non-zero |
| XorShift.NeverZero | crates/aulon-server/src/main.rs:163-166 | the generator maps only zero to zero |
| XorShift.FirstDraws | crates/aulon-server/src/main.rs:163-166 | three draws, which fix the shifts and their order |
| XorShift.SeedNotZero | crates/aulon-server/src/main.rs:130 | no 32-bit shard id seeds it with zero |
| Dispatch.Worker.Deliver | crates/aulon-server/src/main.rs:660-665 | encodes the MSG with the published subject, reply subject and payload and the target's sid into the scratch and enqueues it, or skips what does not fit or has no connection |
| Dispatch.Worker.DispatchLocal | crates/aulon-server/src/main.rs:630-678 | out of the listed subscriptions whose subject covers the published one, selects every ungrouped one once and one member per group, and delivers to exactly those; refuses exactly the subjects that may not be published to, delivering nothing |
| Dispatch.ScratchFits | crates/aulon-server/src/main.rs:48-51 | a payload of at most 1 MiB with at most 4096 other bytes always fits the scratch |
| Registration.AgreementExactly | crates/aulon-server/src/main.rs:296-310 | a step from a state in which connection map, readers' records and table agree keeps the agreement iff it gives out no id in use and moves no live sid to another subject |
| Registration.RunsExactly | crates/aulon-server/src/main.rs:359-438 | over whole runs: they agree after every step iff every step taken was of that kind |
| Registration.AlwaysAgrees | crates/aulon-server/src/main.rs:424-435 | on such runs every entry's connection is registered and recorded |
| Registration.AgreesBeforeWrap | crates/aulon-server/src/main.rs:148-152 | they agree on every run that gives out at most 2^32 ids and moves no live sid |
| Registration.UnsubCleans | crates/aulon-server/src/main.rs:529-534 | UNSUB removes exactly the entries of that sid of that connection |
| Registration.DisconnectCleans | crates/aulon-server/src/main.rs:424-435 | reader exit removes exactly that connection's entries, in any order of the map |
| Registration.ResubscribedLeaks | crates/aulon-server/src/main.rs:522 | a live sid re-SUBbed under another subject outlives its connection in the table |
| Registration.MovedSidRun | crates/aulon-server/src/main.rs:506-523 | the shortest such run: accept, SUB `>`, SUB `*` under the same sid, disconnect |
| Registration.ReusedIdUnregisters | crates/aulon-server/src/main.rs:435 | a connection given an id in use is unregistered when the id's first owner leaves, with its subscriptions in the table |
| Registration.WrappedIdRun | crates/aulon-server/src/main.rs:148-152 | a run in which this happens: 2^32 + 1 connections, the last subscribes, the first leaves |
| Registration.WorkerState.NextId | crates/aulon-server/src/main.rs:148-152 | the ids count up and wrap at 32 bits |
| Registration.WorkerState.Admit | crates/aulon-server/src/main.rs:294-310 | an accept performs the registry's step, or spends an id when the pool is empty |
| Registration.ReaderTask.HandleSub | crates/aulon-server/src/main.rs:506-523 | the SUB branch performs the registry's step and reports the subject error |
| Registration.ReaderTask.HandleUnsub | crates/aulon-server/src/main.rs:524-535 | the UNSUB branch performs the registry's step, or refuses a message count |
| Registration.ReaderTask.Exit | crates/aulon-server/src/main.rs:424-435 | the cleanup performs the registry's step: every recorded sid unsubscribed, the id unregistered |
| EndToEnd.SelectionServesList | crates/aulon-server/src/main.rs:630-678 | after any history the selection serves each listed ungrouped subscription whose subject covers the published one as often as listed, and one listed member of each group that has one |
| EndToEnd.ArrivedIsLegal | crates/aulon-proto/src/parse.rs:29-50 | the frames that can arrive are exactly the legal ones |
| EndToEnd.SelectedLegal | crates/aulon-server/src/main.rs:630-678 | when every SUB came over the wire, every selected sid is a legal token |
| EndToEnd.ClientReads | crates/aulon-server/src/main.rs:658-676 | a client parsing what a publish appended to its connection reads one MSG per selected subscription of its own that fits, in order, each with that sid and the subject, reply subject and payload published, and nothing else |
| ClientStream.StreamReadsBack | crates/aulon-proto/src/parse.rs:29-50 | concatenated encodings read back as their frames with nothing left over |
| ClientStream.ClientReadsSocket | crates/aulon-server/src/main.rs:445-483 | on every run a client parsing its whole socket reads an initial part of the frames its connection took, all offered ones once it is open and flushed, and after a close all taken ones and then at most the `-ERR` |
| ClientStream.LastWords | crates/aulon-server/src/main.rs:467-481 | once closing, with successful writes, the client reads every frame taken and then one `-ERR`, `slow consumer` or `protocol error` by the first reason, or nothing when the peer closed |
| Fanout.DispatchEach | crates/aulon-server/src/main.rs:659-676 | a dispatch sends every task exactly its MSGs, in selection order |
| Fanout.DueCount | crates/aulon-server/src/main.rs:659-676 | one for each time one of its targets was selected |
| Fanout.DispatchIsDeliverAll | crates/aulon-server/src/main.rs:659-676 | on the outbound buffers this is what the dispatch loop does |
| Fanout.EverySelectedReached | crates/aulon-server/src/main.rs:663-665 | while registrations and table agree, every selected subscription belongs to a registered live reader that has it on record |
| Shard.StepKeeps | crates/aulon-server/src/main.rs:359-438 | on a shard, every connection has been offered exactly the MSGs due to it from all dispatches, in order, besides replies |
| Shard.SomeSelection | crates/aulon-server/src/main.rs:667-669 | a dispatch always has a selection |
| Broker.BrokerAlways | crates/aulon-server/src/main.rs:580-711 | the broker's invariant holds on every run of all shards, tasks, inboxes and writers together |
| Broker.DrainNeverBlocked | crates/aulon-server/src/main.rs:696-708 | a drain task with a frame in hand can always dispatch it |
| BrokerTheorems.DispatchedExactly | crates/aulon-server/src/main.rs:580-621 | every shard has dispatched all valid PUBs of its own worker and, once quiet, exactly those of every other worker its inbox accepted, in order |
| BrokerTheorems.EveryDispatchServes | crates/aulon-server/src/main.rs:630-678 | every dispatch of every run serves the subscriptions of its moment: each ungrouped match once, one listed member for each group, and the groups are exactly those with a listed member |
| BrokerTheorems.DueExactly | crates/aulon-server/src/main.rs:658-676 | how often each MSG is sent to a task by a dispatch, on fields: only with the subject, reply subject and payload dispatched, if it fits, while registered, as often as the subscription with that sid was selected |
| BrokerTheorems.CarefulExactly | crates/aulon-server/src/main.rs:296-310 | every shard's connection map, records and table agree after every step of a run iff no step taken gave out an id in use or moved a live sid |
| BrokerTheorems.CarefulAgrees | crates/aulon-server/src/main.rs:296-310 | on such runs they also did at every dispatch |
| BrokerTheorems.NobodyMissed | crates/aulon-server/src/main.rs:658-676 | so each selected subscription that fits belongs to a live task with its sid on record, which is due its MSG as often as it was selected |
| BrokerTheorems.SubscriberReads | crates/aulon-server/src/main.rs:445-483 | the MSGs a client parses out of its whole socket are an initial part of those due to it, all of them once flushed |
| BrokerTheorems.EndToEndDelivery | crates/aulon-server/src/main.rs:580-711 | all of it together, from the PUBs handled on every shard to the MSGs a subscriber's client reads; on careful runs no selected subscription is missed |
| Provenance.DispatchHandled | crates/aulon-server/src/main.rs:580-711 | every dispatch is of a frame its worker had handled, with the table as an earlier part of the history left it |
| QueueGroups.GroupAcrossShards | crates/aulon-server/src/main.rs:592-676 | for one PUB that every other inbox accepted, once quiet: every shard dispatched it, and a group was served once per shard holding a matching member then, so once iff exactly one did |
| QueueGroups.HoldsListed | crates/aulon-server/src/main.rs:641-655 | a shard holds a matching member iff its flat list does |
| Clients.ReaderTakes | crates/aulon-server/src/main.rs:379-422 | whatever the chunks, the reader loop handles an initial part of the frames in the bytes sent |
| Clients.HandledIsSent | crates/aulon-server/src/main.rs:489-553 | on every run a reader has handled an initial part of the frames in its client's bytes, and its worker exactly the PUBs among them of at most 1 MiB with their subject, reply subject and payload, in order; the valid ones are those to a subject that may be published to |
| ClientRecords.RecordsAreSent | crates/aulon-server/src/main.rs:506-535 | on every run a live reader's sid map is what the SUBs and UNSUBs it took from its client's bytes make of the empty map, in order, and its operations in the table's history are exactly theirs; once gone, these and one unsubscribe per sid left |
| ClientReplies.EveryFrameAnswered | crates/aulon-server/src/main.rs:365-568 | on every run a reader takes no frame before its client is greeted, and the INFOs, PONGs and error replies the connection was offered are that one greeting and then exactly the replies to the frames its reader took, in order |
| ClientReplies.ReplyExactly | crates/aulon-server/src/main.rs:495-568 | which reply every frame gets, on its bytes |
| ClientReplies.TakeNeverBlocked | crates/aulon-server/src/main.rs:399-408 | the next frame of a live reader can always be handled when its worker is free |
| ClientCloses.WhyClosed | crates/aulon-server/src/main.rs:389-436 | on every run a connection has been told the peer closed iff its reader has left, and of a protocol error only if its client's bytes, from some frame on its reader had come to, are malformed or longer than a frame may be |
| BackPressure.RefusalsStep | crates/aulon-server/src/main.rs:592-620 | one more of a connection's PUBs counts as refused exactly when its worker returns from the other shards having seen a refusal |
| ClientPressure.PressureTold | crates/aulon-server/src/main.rs:592-620 | on every run a connection has been told of back-pressure exactly once for each of its valid PUBs some other shard refused, as far as its worker is through with them |
| ClientMessages.EachMsgExplained | crates/aulon-server/src/main.rs:359-711 | every MSG a client reads goes back to a PUB with the same subject, reply subject and payload taken from some client's bytes, and to a SUB with its sid, live at the dispatch and covering the subject, taken from its own client's bytes (from those of one with its connection id, once ids wrap) |
| ClientMessages.ClientToClient | crates/aulon-server/src/main.rs:359-711 | from one client's bytes to another's: what a shard dispatched for a connection is what its client sent, all of it iff no push was refused, and the subscriber reads what is due |
| BrokerExample.SomebodyReads | crates/aulon-server/src/main.rs:359-711 | a run to which it applies, from an empty broker to a client that has read the message it is due |

## Left out

- Weak-memory behaviour of the atomics: the machine is sequentially consistent.
- eventfd system calls, failing wakes, and the exit of the drain task on a failed eventfd read.
- ShardInbox.Ring.Push: describes a call without interference, so the retry loop of `push` runs once; the retries are steps of the machine.
- Trie.InsertBucket: the walk down a mutable cursor is a recursion on owned node values; the nodes are never shared in the code, so no aliasing is lost.
- Dispatch.Worker.PickIndex: how evenly the members of a group are picked is not stated.
- Emit.EmitFrame: what the buffer holds after a failed emit is not stated; every caller discards it.
- Dispatch.Worker.DispatchLocal: connections are outbound buffers as values in a map, not shared objects; the permit and the close of each are in the value.
- Broker.BrokerAlways: the inboxes inside the broker count without wrap-around; `FixedWidth.RunRefines` relates them to the W-bit ring.
- Reader.ReaderLoop: `budget` and the reads say when a connection is found closed; why it closes is in `ClientCloses`.
- JSON bodies of CONNECT and INFO: opaque bytes, as in the code.
- Sockets, listening, thread pinning, buffer pool, topology discovery, benchmarks.
- Hashing, inline vector sizes, reference counts and allocation counts: sequences, maps and values stand for them.
