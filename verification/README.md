# A verified model of the messenger's log

A node of this messenger keeps, for every chat, an append-only log of signed messages.
Each entry carries the hash of the one before it; every hundred entries a snapshot seals
the window since the previous snapshot under a Merkle root; clients page through the log,
follow live events and ask for inclusion proofs. This project models the writer, its
lock-free readers, the two stores, the event broker and the web client, and proves what
they guarantee over every input, every interleaving and every run.

## How it is modelled

| file | what it models |
|---|---|
| Hashing.dfy | SHA-256 as an arbitrary function with 64-character digests |
| Merkle.dfy | the tree that the layer loops of `internal/merkle/tree.go` digest: shape, padding, binding |
| InclusionProofs.dfy | `Root`, `Proof` and `VerifyProof` as loops; completeness and soundness of proofs |
| Decimal.dfy, Encoding.dfy, CanonicalJson.dfy | number printing, UTF-8 and base64, the canonical JSON of client and server |
| Models.dfy | messages, entries, snapshots, the signing payload, the entry hash |
| Chain.dfy | the hash chain, the two verifiers, tamper evidence |
| Columns.dfy | what a ScyllaDB row gives back: the millisecond timestamp column |
| Seals.dfy | snapshot windows and `ProveInclusion` as a function of what its two reads return |
| EntryProofs.dfy | inclusion proofs checked by a holder of the entry, whatever the proof's length |
| Storage.dfy, Broker.dfy, ChatLog.dfy | the in-memory store, the broker and the log as classes, one call at a time |
| NodeRuns.dfy | one node run by any number of threads, one storage, cache or broker call per step, each of which may fail with or without effect, and any number of subscribers coming, reading and leaving in between |
| Refinement.dfy | the whole-call and the step-by-step model of `Append` agree, for one thread and for every interleaving |
| Announcements.dfy | exactly which events a node without faults publishes |
| Notifications.dfy | from the append to a subscriber of the broker |
| SharedTable.dfy | several nodes appending to one ScyllaDB table through insert-if-absent |
| History.dfy, ChatClient.dfy | the paging cursor and the list shown by `useChat` |

Conventions that hold throughout:

- **Hashing.** Every theorem is proved for every function with 64-character digests. Such a
  function cannot be injective, so a binding result reads "equal, or this pair, computed
  from the inputs, is a collision" (`Collides`, applied to `RootCollision`,
  `ProofCollision`, `EntryCollision` or `ChainCollision`).
- **Signatures.** Ed25519 verification is any predicate of key, data and signature; the
  32-byte key check is the repository's own, and that only 64-byte signatures verify is
  section 5.1.7 of RFC 8032.
- **Text.** A string is well-formed Unicode; a byte is a character below 256; a timestamp is
  the text that RFC 3339 gives it. Go writes the short escapes `\b` and `\f` as the module's
  Go version (1.24) does.
- **Numbers.** Sequences are naturals; the 64-bit wrap-around of `ProveInclusion` and its
  conversion to `int` are written out. A log has fewer than 2^63 entries, the bound a Go
  slice has.
- **Steps.** In `NodeRuns` and `SharedTable` a run is a finite list of actions, and a theorem
  about all runs is about every reachable state. A call ends `Done`, `FailedClean` (an
  error, nothing applied) or `FailedApplied` (an error although it was applied).
- **Rows.** A log in the store is the entries as they were inserted. The in-memory store gives
  them back unchanged. ScyllaDB gives back another timestamp when the inserted one has more
  than three fractional digits; `Columns` and `SharedTable.TableReadsBack` say what follows
  for every log that verified when it was inserted, those of `NodeRuns` included.
- **Clock.** `CreatedAt` of a snapshot is read by nothing and is omitted.

## Where the code and its claims part

- `docs/api.md:249` shows a failed verification that still reports 3 entries. The code
  returns a fresh result with the reason alone (`internal/chatlog/log.go:300-312`), so a
  failed verification reports 0 entries, as `Log.Verify` states.
- `docs/architecture.md:15-19` hashes a message, a bar and the previous hash, starting from
  the word genesis. The code hashes sequence, previous hash and message digest separated
  by colons, starting from 64 zeros (`internal/models/message.go:14-15`, `:122-129`).
- The messenger's own README (`README.md:24` in its root) says that walking the chain shows no message was deleted. A log cut short
  verifies as well (`ChainedPrefix`): only the tip hash, or a snapshot's last hash,
  tells (`TipBindsLog`, `HashBindsPrefix`).
- `web/src/chat/useChat.ts:21-25` treats the cursor as the next sequence to fetch. That
  holds in a run exactly if no sent message came back while its entry lay beyond the
  cursor (`ListIsLogIff`, and so in every run without sends). One that does moves the
  cursor past entries not shown (`GapHappens`). Such an entry is shown by no continuation
  exactly if nothing in flight can still bring it: no page asked for that covers it, no
  answered page that holds it, and not its own reply (`GapIsPermanent`). A page that was in
  flight brings it late, after the entry it precedes in the log (`GapFilledLate`).
- `internal/models/message.go:67-74` cuts its own timestamps to milliseconds, because a finer
  one would not survive the ScyllaDB column. Nothing on the way from a client to the table
  checks this for messages signed elsewhere. A message with a finer timestamp is accepted
  and stored, and from then on reported as tampered with (`SubMillisecondRow`);
  `TableReadsBack` shows that this happens to exactly those rows.
- The storage port asks for rejection of any sequence but the next one
  (`internal/storage/storage.go:20-21`); the ScyllaDB adapter checks only that the slot is
  free. `EveryStepAppends` shows that together with the log's own use of the tip the port's
  contract nevertheless holds, stale tip reads included.
- The comment on `Sync` (`internal/chatlog/log.go:327-328`) has a newcomer replay the new
  entries from the snapshot. They always verify, but `CurrentHash` may be ahead of the
  last of them (`SyncMayLag`); `SyncEndToEnd` says exactly when.
- `VerifyEntry` never looks at the entry's own sequence (`VerifyEntryIgnoresPosition`). It
  leaves that to the store: neither store of the repository gives an entry under another
  sequence, since `InMemoryStorage.AppendEntry` refuses it and a ScyllaDB row is selected by
  its sequence. On such stores the two verifiers agree (`VerifiersAgree`).
- `VerifyProof` checks neither the leaf's width nor the proof's length, and without them it
  accepts strings that are no leaf (`WidthAndLengthMatter`, `ShortProofFools`). With them it
  needs no check of the proof's nodes (`InclusionSound`); and a verifier who holds the entry
  and checks the widths of the proof's nodes needs no check of the length
  (`EntryProofSound`).
- `Root` binds a list among lists of one length only. A list of odd length has the root of
  the list with its last leaf repeated (`RepeatedLastLeaf`), and every layer of a tree, taken
  for leaves, has the tree's root (`LayerHasSameRoot`). `RootBinding` is the exact condition
  for any two lengths.

## Model

| member | source | states |
|---|---|---|
| InclusionProofs.Root | internal/merkle/tree.go:19-37 | the layer loop, which grows an odd layer before halving it, terminates and returns the digest of the tree that `Merkle.Grow` names; "" for no leaves |
| InclusionProofs.HashLayer | internal/merkle/tree.go:30-34 | one pass over an evened layer yields the digests of the subtrees one layer up |
| InclusionProofs.Proof | internal/merkle/tree.go:48-74 | for an index in range, the same root as `Root` and the siblings met when walking down that same tree; nothing and "" out of range, negative indices included |
| InclusionProofs.VerifyProof | internal/merkle/tree.go:78-88 | accepts exactly the proofs that climb from the leaf to the root |
| Merkle.RootIsPerfectTreeRoot | internal/merkle/tree.go:19-37 | loop refinement: the root equals the top-down halving root of a perfect binary tree over the padded leaves |
| Merkle.PaddedShape | internal/merkle/tree.go:26-36 | the padded list is the leaves extended to the least power of two, and position k repeats leaf `Source(n, k)` |
| Merkle.PaddingOfFiveAndSix | internal/merkle/tree.go:26-29 | the padding repeats subtrees: five leaves pad to 0 1 2 3 4 4 4 4, six to 0 1 2 3 4 5 4 5 |
| Merkle.DepthIsLeast | internal/merkle/tree.go:26-36 | the number of layers over n leaves is the least d with 2^d >= n |
| Merkle.RootBinding | internal/merkle/tree.go:11-37 | for lists of any two lengths, the first with the tree that is not deeper: one root exactly when the first list, padded, is the layer of the second's tree that many levels below the root; for wide leaves the converse holds or a collision is exhibited |
| Merkle.LowestLayerIsPadded | internal/merkle/tree.go:26-36 | for trees of one depth that layer is the second list, padded |
| Merkle.EqualLengthBinding | internal/merkle/tree.go:11-37 | equal-length lists of wide leaves with one root are identical, or a collision is exhibited |
| Merkle.LayerHasSameRoot | internal/merkle/tree.go:26-36 | across depths binding fails for every hash function: each layer of a tree, taken for a list of leaves, has the same root |
| Merkle.RepeatedLastLeaf | internal/merkle/tree.go:27-29 | among trees of one depth it fails through repetition: an odd list and the list with its last leaf repeated have one root |
| InclusionProofs.ProofComplete | internal/merkle/tree.go:48-88 | every honest proof is accepted, has length the least d with 2^d >= n, and its flags are the binary digits of the index, lowest first |
| InclusionProofs.InclusionSound | internal/merkle/tree.go:78-88 | a wide leaf with any proof of exactly the tree's depth is accepted only if it is the leaf its direction bits decode to through the padding, and the proof is the honest one there, or a collision is exhibited; node widths need no check |
| InclusionProofs.InclusionAccepts | internal/merkle/tree.go:78-88 | every such claim, positions in the padding included, is accepted, so soundness is exact |
| InclusionProofs.WidthAndLengthMatter | internal/merkle/tree.go:78-88 | whatever the hash function, the empty string is accepted against two leaves with a proof of the right length, and it is a leaf only if one of the two is empty; an inner digest is accepted against four leaves with a proof one step short |
| InclusionProofs.ShortProofFools | internal/merkle/tree.go:78-88 | for every hash function there is a wide list for which a wide string that is none of its leaves is accepted with a proof one step short, or a collision is exhibited |
| EntryProofs.EntryProofSound | internal/chatlog/log.go:169-179 | for a verifier who computes the hash of an entry it holds: a proof of wide nodes, of whatever length, is accepted against a snapshot only if the log holds that entry inside the snapshot's window and at its own sequence, or a collision is exhibited |
| Decimal.FormatUint | internal/models/message.go:131-143 | filling a 20-character buffer from the right never underruns it for any 64-bit value and leaves the decimal digits of the value |
| Decimal.PrintParses | internal/models/message.go:131-143 | decimal parsing undoes printing; only digits, no leading zero |
| Decimal.PrintIntParses | internal/models/message.go:90-90 | and so it does for a version of either sign |
| CanonicalJson.AnyOrderIsOnePass | web/src/crypto/signedMessage.ts:74-88 | the whole-text replacements, in any order and repeated at will, equal one pass that looks at each character once |
| CanonicalJson.GoEscape | web/src/crypto/signedMessage.ts:82-88 | the loop over the five replacements computes that one pass |
| CanonicalJson.CanonicalJSON | web/src/crypto/signedMessage.ts:93-97 | the client's text for fields given in key order |
| CanonicalJson.ClientMatchesServer | web/src/crypto/signedMessage.ts:90-97 | for every list of fields, quoting then escaping the whole text gives character for character what an encoder deciding once per character gives |
| CanonicalJson.CanonicalParses | internal/models/message.go:101-104 | a JSON parser recovers every field from the signed text |
| CanonicalJson.CanonicalInjective | internal/models/message.go:79-104 | different fields never share a signed text |
| CanonicalJson.EscapedLookalikesDiffer | web/src/crypto/signedMessage.ts:74-80 | a literal backslash-u003c and `<` are encoded differently |
| Encoding.Utf8Decodes | web/src/crypto/signedMessage.ts:113-113 | a UTF-8 decoder recovers every well-formed text |
| Encoding.Base64Decodes | internal/models/message.go:93-93 | a base64 decoder with the standard alphabet and padding recovers every byte string |
| Models.ClientPayload | web/src/crypto/signedMessage.ts:100-114 | the bytes the client signs are the bytes the server verifies |
| Models.FieldsAreSorted | web/src/crypto/signedMessage.ts:94-94 | the ten keys are listed in the one order a sort leaves them |
| Models.PayloadHolds | internal/models/message.go:84-105 | decoded, the signed bytes are the text of one JSON object of exactly ten members, each under its literal key and in sorted order: the five plain strings, the timestamp, "true" or "false", the decimals of the version, and base64 of content and public key |
| Models.SigningPayloadInjective | internal/models/message.go:79-105 | the signed bytes determine every field of a message but its signature |
| Models.EntryPreimageInjective | internal/models/message.go:122-129 | sequence, colon, previous hash, colon, digest can be split in one way only, whatever the previous hash looks like |
| Models.EntryHashReads | internal/models/message.go:122-129 | what an entry hash digests, read back: the digits to the first colon are the sequence, the last 64 characters the digest of payload then signature, and what lies between the previous hash |
| Models.EntryBinding | internal/models/message.go:115-129 | an entry hash binds position, predecessor, payload and signature, or a collision is exhibited |
| Chain.ChainedMeans | internal/chatlog/log.go:291-317 | the walk accepts exactly the logs contiguous from 0, linked from the genesis hash, of version 1, with every hash recomputed and every message signed under the 32-byte key it carries |
| Chain.GenesisIsZeros | internal/models/message.go:14-15 | the genesis hash is 64 zeros |
| Chain.FaultMeans | internal/chatlog/log.go:298-315 | the reason the walk gives for an entry is the first of the checks that it fails, in the code's order, each stated outright |
| Chain.OneReason | internal/chatlog/log.go:298-315 | no entry fails for two reasons, and none that is right for any |
| Chain.EntryFaultMeans | internal/chatlog/log.go:256-279 | the same for the reasons and the order of `VerifyEntry` |
| Chain.AcceptableMeans | internal/chatlog/log.go:70-76 | a message may be appended exactly if its version is 1, its key has 32 bytes, its signature 64, and Ed25519 accepts the signature of the payload under the key |
| Chain.CutShows | internal/chatlog/log.go:299-301 | an entry cut out of an accepted log shows as a sequence gap where it was, and nothing before it shows |
| Chain.RelinkShows | internal/chatlog/log.go:302-304 | an entry given another previous hash shows as a broken chain |
| Chain.OtherVersionShows | internal/chatlog/log.go:305-307 | a message given another version shows as an unsupported version |
| Chain.ExchangeShows | internal/chatlog/log.go:308-310 | a message exchanged under the old entry hash shows as a tampered entry, or a collision is exhibited |
| Chain.ForgeryShows | internal/chatlog/log.go:311-313 | one exchanged with its hash recomputed shows as a bad signature if Ed25519 rejects it |
| Chain.VerifiersAgree | internal/chatlog/log.go:250-317 | the walk accepts exactly the logs whose every entry verifies alone and stands at its own sequence, which `AppendEntry` guarantees even for forged entries |
| Chain.VerifyEntryIgnoresPosition | internal/chatlog/log.go:250-280 | alone, `VerifyEntry` says nothing about position: given an entry under another sequence, which the repository's own stores never return, it accepts and the walk rejects |
| Chain.ChainedPrefix | internal/chatlog/log.go:291-317 | a log cut short still verifies |
| Chain.ChainSplits | internal/chatlog/log.go:327-354 | a log verifies exactly when its sealed part does and the rest verifies starting from the sealed part's last hash |
| Chain.ChainedExtends | internal/chatlog/log.go:82-96 | the entry built on the tip of an accepted log extends it to an accepted log |
| Chain.TipBindsLog | internal/chatlog/log.go:291-317 | tamper evidence: two accepted logs with one tip hash are the same log, length, payloads and signatures included, or a collision is exhibited |
| Chain.HashBindsPrefix | internal/models/message.go:145-154 | two accepted logs holding one entry hash, such as a snapshot's last hash, agree up to there and hold it at the same place, or a collision is exhibited |
| Chain.TipNeverReturns | internal/chatlog/log.go:82-96 | a growing log never has an earlier tip hash again, or a collision is exhibited; for the empty log, a preimage of 64 zeros |
| Columns.ReadBackFault | internal/storage/scylla.go:146-178 | position by position and for any column: a good entry verifies on reading exactly if the column keeps its timestamp; if not, both verifiers report it as tampered with, or a collision is exhibited |
| Columns.ReadBackVerifies | internal/storage/scylla.go:123-142 | a whole log read back verifies exactly if the column keeps all its timestamps, or a collision is exhibited |
| Columns.MillisecondsKeeps | internal/models/message.go:67-74 | the CQL column keeps exactly the timestamps of at most three fractional digits |
| Columns.MillisecondsCut | internal/models/message.go:67-74 | a finer one comes back with the first three digits, less the zeros at their end |
| Storage.InMemoryStorage.AppendEntry | internal/storage/storage.go:55-65 | accepts exactly the entry one past the tip, appends it alone, and keeps every entry at the position of its sequence |
| Storage.InMemoryStorage.LastEntry | internal/storage/storage.go:67-76 | the last entry, none for an empty or unknown chat |
| Storage.InMemoryStorage.Entry | internal/storage/storage.go:78-87 | the entry at a position, none past the end |
| Storage.InMemoryStorage.EntriesSince | internal/storage/storage.go:89-100 | the suffix at a position, empty past the end |
| Storage.InMemoryStorage.SaveSnapshot | internal/storage/storage.go:102-108 | appends to the snapshots of the snapshot's own chat and changes nothing else |
| Storage.InMemoryStorage.LatestSnapshot | internal/storage/storage.go:110-119 | the last saved snapshot, none if there is none |
| Storage.InMemoryStorage.SnapshotAtIndex | internal/storage/storage.go:121-130 | the snapshot saved at a position, none past the end |
| ChatLog.Log.Append | internal/chatlog/log.go:70-111 | appended exactly if the version is 1, the key has 32 bytes, the signature 64, and Ed25519 accepts it; refused for its version exactly if that is not 1; a rejected message changes nothing; an accepted one becomes the next entry, is announced, and at a boundary its window is sealed, cached and announced; a sequence gap is not an outcome; the invariant of every chat is kept; every channel subscribed to the broker is offered exactly what was announced, in order |
| ChatLog.Log.Announce | internal/chatlog/log.go:98-103 | one event happens to every subscribed channel, and to no other |
| ChatLog.Log.SnapshotWindow | internal/chatlog/log.go:115-155 | saves one snapshot over everything since the previous one, caches its root, announces it to every subscribed channel |
| ChatLog.AppendKeepsInv | internal/chatlog/log.go:70-155 | after any append: every chat's log verifies, its snapshots cover exactly the first hundreds, one each, and the cached root is the latest |
| ChatLog.Log.Verify | internal/chatlog/log.go:291-317 | valid exactly for accepted logs, then with the number of entries; otherwise no entries, the first position at which a check fails, and the check that fails there, stated outright; always valid on a log filled by `Append` |
| ChatLog.Log.VerifyEntry | internal/chatlog/log.go:250-280 | none exactly for a missing entry; valid exactly if version, hash, signature and link are right; otherwise the first check that fails in the code's order, stated outright |
| ChatLog.Log.ProveInclusion | internal/chatlog/log.go:184-220 | succeeds exactly below 100 times the number of snapshots, and then the proof is right; otherwise it reports an unsealed message; no other error, no panic |
| ChatLog.Log.Sync | internal/chatlog/log.go:329-354 | sealed prefix and new entries make up the log, fewer than 100 are unsealed, the new ones start from the snapshot's last hash, and the current hash is the tip's |
| ChatLog.Log.History | internal/chatlog/log.go:224-233 | the entries from a cursor on, all of them for a limit of zero or less and the first so many for a positive one |
| ChatLog.LeafHashes | internal/chatlog/log.go:129-132 | the leaves are the entry hashes of the window, in order |
| Seals.WindowsAligned | internal/chatlog/log.go:115-146 | in any tiling, windows start and end at multiples of 100, are positive multiples of 100 long, and snapshot k never starts before the k-th hundred |
| Seals.TiledExtends | internal/chatlog/log.go:115-146 | later appends disturb no sealed window |
| Seals.TiledSeals | internal/chatlog/log.go:115-146 | sealing at a boundary, however many windows were missed before, extends the tiling |
| Seals.WindowArithmetic | internal/chatlog/log.go:198-207 | the wrapping 64-bit subtraction and the conversion to `int` give the true difference, negative when the sequence precedes the window |
| Seals.ProveInclusionExact | internal/chatlog/log.go:184-220 | on any tiling and whatever was appended between the two reads: success exactly when snapshot sequence/100 exists and starts at that hundred, then with a right proof; the wrapped negative index ends in the root-mismatch error; never a panic |
| Seals.ProveFromAnything | internal/chatlog/log.go:184-220 | whatever snapshot and window a store returns: too short a window is reported, a proof is given exactly if the sequence lies inside and the recomputed root is the snapshot's, and it climbs to that root from the hash at that place; a panic needs an empty root |
| Seals.ProofStaysRight | internal/chatlog/log.go:169-179 | a right proof stays right as the log and its snapshots grow |
| Seals.SnapshotProofSound | internal/chatlog/log.go:169-179 | trusting only a snapshot's root, an accepted proof of the window's depth for a wide leaf names the hash of an entry in that window, at the position its bits decode to, or a collision is exhibited |
| NodeRuns.EveryRunGood | internal/chatlog/log.go:62-155 | the invariant holds after every step of every run of any number of threads over any chats, with or without faults |
| NodeRuns.NodeSafety | internal/chatlog/log.go:62-155 | without faults, in every state: logs contiguous, linked, rehashed and signed, each stated outright; one snapshot per full hundred except while the lock holder is between storing a boundary entry and saving its snapshot; cached root the latest except between saving and caching; no append meets a sequence gap |
| NodeRuns.HundredEntries | internal/models/message.go:18-18 | in particular 99 entries have no snapshot, and 100 have one, over 0 to 99, with its root cached |
| NodeRuns.FaultTolerance | internal/chatlog/log.go:70-155 | whatever storage, cache and broker calls fail, applied or not: logs stay contiguous, linked, rehashed and signed, snapshots tile a prefix in positive multiples of 100 with each root over exactly its window, accepted appends are stored, and no append meets a sequence gap |
| NodeRuns.AppendOutcome | internal/chatlog/log.go:70-111 | an append that returned, in every run: refused for its version or its signature exactly if that is wrong, accepted only with its own message stored, failed only if one of its own calls failed, never for a gap |
| NodeRuns.EntersWhenFree | internal/chatlog/log.go:78-80 | an append waits for a busy lock and takes a free one |
| NodeRuns.HolderFinishes | internal/chatlog/log.go:78-110 | a thread that has the lock returns within nine steps of its own, whatever the other threads do, faults included |
| NodeRuns.NothingFails | internal/chatlog/log.go:70-354 | without faults no call ends in a storage error |
| NodeRuns.ProveReturns | internal/chatlog/log.go:184-220 | a `ProveInclusion` called in any reachable state has returned after two steps of its own without a fault, whatever else runs or fails |
| NodeRuns.SyncReturns | internal/chatlog/log.go:329-354 | a `Sync` has after three |
| NodeRuns.ProveEndToEnd | internal/chatlog/log.go:184-220 | every `ProveInclusion` called in a reachable state that took two steps of its own without a fault: it returned, having seen every snapshot there was when it was called; success exactly when the needed snapshot existed at its first read and starts at the matching hundred, hence whenever that held at the call; its proof is still right after any further run; if nothing failed anywhere, success exactly below 100 times the snapshots it saw, hence for every sequence sealed at the call |
| NodeRuns.ReadsAreFresh | internal/storage/storage.go:89-130 | at each step of a `ProveInclusion` or a `Sync`, what its reads have returned is no older than the moment of the call |
| NodeRuns.SyncEndToEnd | internal/chatlog/log.go:329-354 | every `Sync` called in a reachable state that took three steps of its own without a fault: it returned, each of its reads having seen all there was at the call; sealed prefix plus new entries is the log as of the second read, the new entries verify from the snapshot's last hash or genesis, and the current hash is the tip as of the third read; it is the hash of the last returned entry exactly if nothing came between, or a collision (for an empty log, a preimage of genesis) is exhibited |
| NodeRuns.SyncMayLag | internal/chatlog/log.go:340-347 | a run in which the current hash belongs to an entry that `Sync` did not return |
| NodeRuns.EventsOrdered | internal/chatlog/log.go:94-110 | in every run, faults included, the announcements of a chat's entries come in strictly increasing sequence, each naming a stored entry with that hash |
| Announcements.EventsAreExact | internal/chatlog/log.go:94-154 | without faults, whenever the lock of a chat is free its events are exactly one announcement for each entry, in order, each hundredth followed by that of its snapshot; while it is held only those for the last entry may be missing |
| NodeRuns.RunsGrow | internal/chatlog/log.go:70-155 | a longer run only adds: entries, snapshots and events are never changed or removed, and results once returned stay |
| Refinement.AloneIsAppend | internal/chatlog/log.go:70-155 | refinement: from any state that calls leave behind, the steps of an append that runs alone without faults end with exactly the outcome and the state, events included, of the whole-call model that `Log.Append` implements |
| Refinement.FailedStore | internal/chatlog/log.go:94-96 | an append whose store call fails has stored its entry, unannounced, if the write took effect, and changed nothing if not |
| Refinement.FailedSnapshot | internal/chatlog/log.go:105-109 | one whose snapshot fails to be saved has stored and announced its entry all the same, and the snapshot too if the write took effect, though its root is neither cached nor announced |
| Refinement.IgnoredFailures | internal/chatlog/log.go:98-103 | failures of the broker and the cache are ignored: the append is accepted, and an event or the cached root is missing exactly if the failed call had no effect |
| Refinement.RunsAreWholeCalls | internal/chatlog/log.go:62-155 | in every interleaved run without faults, whenever the lock of a chat is free, its entries, snapshots, cached root and events are those that whole calls of `Append` with the messages of its entries, one after another, leave |
| Notifications.SubscriptionFollows | internal/broker/broker.go:65-96 | in every run of the node, what is published to a subscription for a chat is the stretch of the chat's events from the moment of the subscription, up to now while it is open |
| Notifications.SubscriberSeesOrder | internal/broker/broker.go:65-96 | end to end, for every subscription in every run, faults included: whatever was dropped, the announcements of a chat's entries come in strictly increasing sequence and each names a stored entry with that hash; a subscription still open and never 64 events behind has all of the chat's events since it began |
| Notifications.PromptSubscriberHasAll | internal/broker/broker.go:65-96 | without faults, and with the lock of the chat free when it began and now, such a subscription has received or has waiting exactly one announcement for each entry stored since, each hundredth followed by its snapshot's |
| Notifications.SubscribersAct | internal/broker/broker.go:65-82 | in the runs of a node a subscriber takes the oldest waiting event, and a cancelled one is closed |
| SharedTable.Scylla.AppendEntry | internal/storage/scylla.go:72-89 | applied exactly when the slot is free; an occupied slot stays as it is |
| SharedTable.Scylla.LastEntry | internal/storage/scylla.go:91-105 | the row of the highest sequence as it is read back, none for an empty table |
| SharedTable.Scylla.UndisturbedAppend | internal/chatlog/log.go:82-96 | an append that no other node disturbs wins the next slot of a good table, whatever the column did to the tip's timestamp |
| SharedTable.InsertExtends | internal/chatlog/log.go:82-96 | inserting after any row, however stale, either meets an occupied slot or extends the chain by exactly the entry that follows the tip |
| SharedTable.WinsIffTipCurrent | internal/chatlog/log.go:82-96 | an insert wins exactly when the tip its entry was built on is still the tip |
| SharedTable.InsertEnds | internal/storage/scylla.go:72-89 | in every reachable state, an append that read a tip wins the next slot if it is still the tip and loses otherwise; an insert that fails after taking effect leaves the table like one that was answered, one that fails before leaves it as it was |
| SharedTable.FreshAppendWins | internal/chatlog/log.go:82-96 | in every reachable state, an append that reads the table as it is and inserts before any other wins the next slot |
| SharedTable.RaceLoses | internal/storage/scylla.go:84-87 | two runs in which the second of two appends loses: a race of two reads, and a stale read after the first insert |
| SharedTable.LastRowIsTip | internal/storage/scylla.go:91-105 | the descending one-row query returns the tip of the chain, nothing for an empty table |
| SharedTable.TableSafety | internal/storage/scylla.go:72-105 | any number of nodes, any interleaving, stale tips, failed inserts, any timestamp column: the rows as inserted are always one contiguous, linked, signed chain, winners are stored, and no two win one slot |
| SharedTable.TableReadsBack | internal/storage/scylla.go:146-178 | in every such run, rows read back are contiguous and linked, and a row verifies exactly if the column keeps its timestamp; if not it is reported as tampered with, or a collision is exhibited |
| SharedTable.SubMillisecondRow | internal/models/message.go:67-74 | a concrete message with a tenth of a millisecond that is accepted, stored and then fails |
| SharedTable.RowsNeverChange | internal/storage/scylla.go:84-87 | no row is ever overwritten or removed |
| SharedTable.EveryStepAppends | internal/storage/storage.go:20-22 | every step leaves the log as it is or appends the entry that follows exactly its tip: the cluster refines one sequential log |
| Broker.InMemory.Subscribe | internal/broker/broker.go:65-82 | a fresh, open, empty channel under an unused id; other subscriptions untouched |
| Broker.InMemory.Cancel | internal/broker/broker.go:73-80 | removes and closes only its own channel, and is idempotent |
| Broker.InMemory.Publish | internal/broker/broker.go:86-96 | the event happens once to every registered channel, which takes it if fewer than 64 wait |
| Broker.StreamIsKept | internal/broker/broker.go:84-96 | over any life of a subscription, received plus waiting is, in order, exactly the publications that met fewer than 64 waiting events while it was open |
| Broker.SixtyFourAreKept | internal/broker/broker.go:70-70 | a subscriber who takes nothing keeps exactly the first 64 events |
| Broker.KeptIsOrdered | internal/broker/broker.go:84-96 | which is an order-preserving subsequence of all that was published meanwhile |
| Broker.Channel.Receive | internal/broker/broker.go:65-82 | takes the oldest waiting event, if any, and nothing else |
| Broker.PromptReaderMissesNothing | internal/broker/broker.go:84-96 | nothing is missing exactly if no publication met 64 waiting events, and then received plus waiting is all that was published |
| Broker.NothingAfterCancel | internal/broker/broker.go:73-80 | after a cancel nothing arrives and nothing reopens the channel |
| Broker.OpenUntilCancel | internal/broker/broker.go:65-82 | a subscription is open exactly until its first cancel |
| History.HandleHistory | internal/api/server.go:195-225 | a limit of zero is refused; otherwise the page is the entries from the cursor on, as many as the least of the limit (50 if absent), 200 and what is left, and the cursor is one past the last entry exactly for full pages |
| History.RespondSlices | internal/api/server.go:212-223 | on a log of contiguous sequences the page is the slice at the cursor, and a cursor is returned exactly when a full page was there |
| History.FollowCollects | internal/api/server.go:203-223 | following the cursor while the log grows collects, without gap or repeat, a stretch of the log as of the last request, reaching its end when the cursor is null |
| History.FollowCount | internal/api/server.go:203-223 | on a log of n entries that does not change it takes exactly n/L + 1 requests from the start, an empty last page included when L divides n |
| ChatClient.ChatHook.AppendEntries | web/src/chat/useChat.ts:27-38 | adds the entries of sequences not held and moves the cursor to one past the last, never back |
| ChatClient.ChatHook.PageArrived | web/src/chat/useChat.ts:42-50 | the page is merged, and the client is caught up exactly when no cursor came with it |
| ChatClient.ListIsLogIff | web/src/chat/useChat.ts:27-97 | in every run of page loads, live refetches and sends, overlapping and answered in any order from a growing log, the list is exactly the log up to the cursor, in order, if and only if no sent message came back while its entry lay beyond the cursor |
| ChatClient.ListIsLog | web/src/chat/useChat.ts:27-74 | and so in every run without sends |
| ChatClient.LoadCatchesUp | web/src/chat/useChat.ts:40-50 | when a load's page comes without a cursor, however late, the hook is caught up and its cursor is at least at the end of the log as it was when the page was answered; unless a send came back out of order the list shows all of that log |
| ChatClient.LiveEventFetches | web/src/chat/useChat.ts:65-74 | in every reachable state, once the page asked for by an event on the open stream has come, the cursor is 50 further or at the end of the log, and everything from the old cursor up to there is shown |
| ChatClient.LoadMoreFetches | web/src/chat/useChat.ts:42-50 | so it is for a load, after which the hook is caught up exactly if fewer than 50 entries were left |
| ChatClient.LoadingEnds | web/src/chat/useChat.ts:40-50 | from every reachable state, (entries left)/50 + 1 undisturbed loads end caught up with everything from the old cursor to the end of the log shown; a list that was the log up to its cursor is then the whole log |
| ChatClient.LiveMessageShown | web/src/chat/useChat.ts:52-74 | a run from the first load on in which another member's message arrives over the stream and is shown |
| ChatClient.OwnMessageShown | web/src/chat/useChat.ts:76-97 | in every reachable state, one's own message is shown once its reply has come, and the cursor is past it |
| ChatClient.LostRequestFrees | web/src/chat/useChat.ts:47-49 | a lost request changes nothing and can be made again |
| ChatClient.ListStaysFaithful | web/src/chat/useChat.ts:27-97 | with sends too: no sequence twice, every entry shown is the log's, the cursor never goes back, nothing shown disappears |
| ChatClient.SendKeepsListIff | web/src/chat/useChat.ts:76-97 | a completed send keeps the list equal to the log exactly when its entry is not beyond the cursor at that moment |
| ChatClient.GapIsPermanent | web/src/chat/useChat.ts:27-97 | an entry that the cursor has passed without its being shown is shown by no continuation, whatever is loaded or sent, if and only if no request in flight can still bring it |
| ChatClient.GapHappens | web/src/chat/useChat.ts:52-97 | a run from the first load on, with one send and one foreign message, that leaves a gap for good |
| ChatClient.GapFilledLate | web/src/chat/useChat.ts:42-97 | a run in which a page in flight brings the passed entry after all, out of order |

## Left out

- Multi-node snapshots: `SaveSnapshot` in ScyllaDB is a plain insert and its window is not cut at the tip, so across nodes only the chain is claimed, not the snapshots.
- SHA-256, Ed25519, AES-GCM, key generation and random ids: foreign code; the first two are arbitrary functions here, the others do not appear.
- HTTP routing, JSON decoding, status codes, WebSocket frames, `main.go` and shutdown: plumbing; of the API only the cursor of `handleHistory` is modelled.
- RabbitMQ, Redis and the gocql driver: foreign systems; of ScyllaDB only insert-if-absent and tip reads.
- `internal/ratelimit/limiter.go`, `internal/service/messenger.go`, `internal/cache/cache.go`: a map around a library, forwarding, and a plain map; the cached root is one field of the log.
- Timestamp formatting: a timestamp is the text that `Format` gives it; only its cut to milliseconds is modelled, in `Columns.Milliseconds`.
- Invalid UTF-8 and lone surrogates: Go replaces them when encoding, so payloads are injective only on well-formed strings, which is what is stated.
- `CanonicalJson.CanonicalJSON`: takes its fields in key order instead of sorting them; the ten keys are fixed, and `Models.FieldsAreSorted` proves that their order is the sorted one.
- `ChatLog.Log.ProveInclusion`: requires fewer than 2^63 entries in the chat, the bound a Go slice has; `NodeRuns` keeps that bound by not storing further entries.
- `Broker.InMemory.Cancel`: takes the id that the source's closure captures.
- `Storage.InMemoryStorage.AppendEntry`: a map update on a sequence; growth of a Go slice in place, and its sharing with earlier readers, is not modelled, as every read copies what it returns.
- `SharedTable.TableSafety`: per-node locks are not used, which only allows more interleavings; a tip read may return the tip of any earlier table. Signatures are claimed of the rows as inserted; `SharedTable.TableReadsBack` says what reading makes of them.
- `ChatClient.ListIsLog`: one chat and its first load; switching chats, errors shown and decryption are user interface. A request may be lost, which covers every failed fetch or send.
- `NodeRuns.SyncEndToEnd`: over entries as inserted, as all of `NodeRuns`; a ScyllaDB reader sees them through `Columns.Back`.
- `NodeRuns.NodeSafety`: safety only; that a waiting append eventually runs is up to the scheduler and the mutex and is not claimed.
