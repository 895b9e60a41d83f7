# YunPin verification model

A Dafny model of the hard logic of the YunPin input method, with proofs. Each module models
one component of the repository.

- **Replicated phrase store and sync.** `Crdt`, `Device`, `DeviceLaws` and `LocalStore` model the
  merge of phrase states, the hybrid logical clock, the phrase and outbox tables and the sync
  checkpoint. `Relay` and `RelayLaws` model the relay handler. `Client` and `Worker` model the
  background worker. `Protocol` is a state machine with one relay log, any number of devices and
  one worker per device; its steps are local mutations, a clock tick whose write never happens, load, seal,
  stage, an exchange whose response may be lost, merging one payload, commit, cursor advance, and a crash
  between any two of them.
  `ProtocolLaws`, `Runs`, `Convergence`, `Contributions` and `Liveness` prove what holds in every run.
- **Phrase index.** `PhraseKeys`, `PhraseRank` and `PhraseIndex`: sorted keys, prefix ranges, recall
  gates, nine-key ranking and first-page quota, against a naive scan. `Segmenter` and `Segmentation`: the
  search that splits letters into syllables, and its product over the chunks of a query. `FuzzyAliases`: the
  fuzzy variants and the bounded alias list.
- **Codecs.** `Bits`, `Checksum`, `Radix` and `RecoveryKey`: the Bech32m recovery text (sections "Bech32"
  and "Checksum" of BIP-173, section "Bech32m" of BIP-350). `Records` and `Credentials`: the canonical
  credential bundle.
- **Learning and menu.** `CorrectionLearning` and `SessionLearning`: which event traces change a score.
  `MergedStream`: the merged candidate stream.
- **Smaller components.** `ReplayRing`: the single-producer single-consumer ring as interleaved steps.
  `TypoCorrection`: the bounded typo generator. `ReplaySequence` and `ReplayReport`: the stream checker and
  the streaming analyzer.

State that the source updates in place is a class whose methods are proved against specification
functions or against the history of calls. `dafny verify dfyconfig.toml` checks everything.

Idealisations. Encryption is perfect and a record hash is an injective constructor. Object and entry
identifiers are the pairs they are derived from. All devices share epoch and verification keys. Each
transaction is atomic. Relay cursors are assigned strictly increasing in commit order. One worker runs
per store, and the operations of one store do not interleave. Clock readings, nonces, the day, the encoded
length of a payload, the case mapping of the standard library, the Ed25519 public key of a seed, the
syllable table and the length of a serialized event are parameters; so are the aliases in `PhraseIndex`, which
`FuzzyAliases` models on their own.

Where the code and the expectation differ, the code is modelled:

- Convergence fails for an object whose uses were not all queued: a first selection is stored and not
  queued. `Convergence.FirstSelectionStaysLocal` is such a run, and `Convergence.ConvergenceTheorem` gives the
  exact condition for new objects, `Contributions.EveryObjectConvergesIffPublished` for all.
- `MergePhrase` is documented as commutative. It keeps a zero count from the left and never adds one from
  the right, so the maps it returns may differ (`Crdt.ZeroCounterStaysOnItsSide`); `Crdt.MergeOfMaps` says
  exactly when they do not. With counts read at default 0 the laws hold always.
- Feedback beyond one million is clamped before it is added. `ScoreLimits.LargeFeedbackFallsShort` is an input
  where that differs from the clamped sum, and `ScoreLimits.ClampedFeedbackIsExactUnless` says exactly when it
  does not.
- A record whose encoding exceeds 512 KiB cannot be sealed, and saving does not limit the text. First in
  line it fails every round: `Worker.SyncOnce` states it for one round, `Liveness.OversizeRecordBlocksForever`
  for every run, and `Liveness.LongSaveBlocks` is a run that gets there.
- A stored presence without a clock, as partial metadata of an older version may have, refuses remote
  payloads it outranks: `DeviceLaws.UnstampedRemovalRefuses` and `DeviceLaws.MergeRemoteSucceedsIff`.
- The 64-bit wall time wraps at the end of its range: `Device.ClockNeedsHeadroom` says exactly when.
- A non-ASCII character may fold to an ASCII one, as the Kelvin sign does (`RecoveryKey.KelvinSignIsMissed`):
  `RecoveryKey.ChangeIsMissedIff` says exactly when such a change is not detected.
- The path limit is applied after each chunk and before the syllable limit of the next, so it may lose every path
  (`Segmentation.SyllableLimitLosesPaths`). `Segmentation.SegmentIsFrontOfProduct` and
  `Segmentation.UncappedIsEverything` say that nothing is lost where only one of the two can bind.
- Fuzzy pairs are applied once each, in a fixed order, through listed syllables only, so being a variant is not
  symmetric (`FuzzyAliases.VariantsAreOneWay`).
- Aliases are documented never to exceed `max_aliases`; with `max_aliases` 0 the literal is still returned. The limit
  is `FuzzyAliases.Limit`.

## Model

| member | source | states |
|---|---|---|
| Crdt.HlcTotalOrder | protocol/crdt.go:16-41 | clock comparison is reflexive, antisymmetric up to equality, transitive and total, so a winner never depends on argument order |
| Crdt.MergePhrase | protocol/crdt.go:97-125 | the in-place merge of a cloned count map fails exactly on empty or different identifiers and otherwise yields the join |
| Crdt.JoinIsLeastUpperBound | protocol/crdt.go:97-125 | merging gives the least state above both arguments in the order of counts, pin clocks and presence |
| Crdt.BelowIffJoinAbsorbs | protocol/crdt.go:97-125 | a state is below another exactly when merging it in changes nothing (counts read with default 0) |
| Crdt.MergeIsAJoin | protocol/crdt.go:97-125 | merge is idempotent, commutative and associative, counts read with default 0 |
| Crdt.MergeOfMaps | protocol/crdt.go:95-125 | on the states themselves, explicit zero counters included, merge is idempotent and associative, and commutative if and only if both sides list the same zero counters |
| Crdt.ZeroCounterStaysOnItsSide | protocol/crdt.go:95-125 | an input on which the documented commutativity fails: one explicit zero counter on one side |
| Crdt.TombstoneDominates | protocol/crdt.go:70-93 | whatever absorbed a tombstone shows the phrase only at a larger generation |
| Crdt.SettingTotalOrder | protocol/crdt.go:127-142 | settings of one key are totally ordered by clock, then by value bytes |
| Crdt.MergeSettingIsAJoin | protocol/crdt.go:127-142 | setting merge picks the larger and is idempotent, commutative and associative |
| Crdt.SumUpdate | localstore/crdt_adapter.go:61-70 | the true sum of a count map changes by exactly the change of one device, whatever the iteration order |
| Crdt.TotalCounts | localstore/crdt_adapter.go:61-70 | for every iteration order of the map the loop returns min(true sum, 2^64-1) |
| Device.IssuedClockIsLater | localstore/crdt_adapter.go:111-144 | the next clock is later than every clock the persisted metadata covers, is stamped with this device, and is covered by the new metadata |
| Device.ClockNeedsHeadroom | localstore/crdt_adapter.go:111-144 | in 64-bit arithmetic the issued clock is later than the last one if and only if the wall time is not at its maximum with a full counter |
| DeviceLaws.EnsureStateTotals | localstore/crdt_adapter.go:78-109 | migrating a legacy use count is exact: other devices keep their counts, none shrinks, and the sum becomes the larger of the old sum and the legacy count |
| DeviceLaws.EnsureStateLaw | localstore/crdt_adapter.go:78-109 | ensuring a state always succeeds on a stored record, gives a sound state above the old one and introduces only clocks the metadata covers |
| DeviceLaws.SaveExplicitAdvances | localstore/store.go:289-349 | an explicit save is refused exactly at the last generation; otherwise it is queued, inflationary, present and has the requested pin |
| DeviceLaws.SelectionAdvances | localstore/store.go:366-405 | a selection is refused exactly on a tombstone or a full counter; otherwise it adds exactly one own use, leaves presence alone, and is queued from the second use on |
| DeviceLaws.DeleteAdvances | localstore/store.go:407-436 | a delete always writes a queued, inflationary tombstone |
| DeviceLaws.UpsertKeeps | localstore/store.go:246-285 | writing a record that lies above the held one, and coalescing its outbox row, keeps the whole database consistent |
| DeviceLaws.ChooseStableIsAJoin | localstore/crdt_adapter.go:247-257 | the stable string choice is idempotent, commutative and associative |
| DeviceLaws.MergePayloadIsAJoin | localstore/crdt_adapter.go:259-275 | payload merge fails only on an empty object and is idempotent, commutative and associative |
| DeviceLaws.ObserveCovers | localstore/crdt_adapter.go:146-170 | after observing a clock the persisted metadata covers it and everything it covered before |
| DeviceLaws.MergeRemoteLaw | localstore/crdt_adapter.go:277-323 | merging a sound remote payload always succeeds; afterwards the store holds a state above both, and other objects, the outbox and the checkpoint are unchanged |
| DeviceLaws.MergeRemoteSucceedsIff | localstore/crdt_adapter.go:277-323 | over records of any age, partial metadata included, a sound payload is refused if and only if the stored presence has no clock and outranks the arriving one |
| DeviceLaws.UnstampedRemovalRefuses | localstore/crdt_adapter.go:277-323 | an input that is refused: a stored second-generation removal without a clock |
| LocalStore.Store.NextHlc | localstore/crdt_adapter.go:111-144 | issues the clock and stores the metadata of the specification |
| LocalStore.Store.ObserveHlc | localstore/crdt_adapter.go:146-170 | raises the stored metadata exactly as far as the observed clock demands |
| LocalStore.Store.EnsurePhraseState | localstore/crdt_adapter.go:78-109 | completes a phrase record in place exactly as specified, or fails on a foreign identifier |
| LocalStore.Store.UpsertPhrase | localstore/store.go:246-285 | the new tables are the old ones with the record written and its outbox row inserted or its version raised |
| LocalStore.Store.SavePhraseExplicit | localstore/store.go:289-349 | the whole new database, refusals included |
| LocalStore.Store.RecordPhraseSelection | localstore/store.go:366-405 | the whole new database, refusals included |
| LocalStore.Store.DeletePhrase | localstore/store.go:407-436 | the whole new database |
| LocalStore.Store.MergePayloads | localstore/crdt_adapter.go:259-275 | joins two payloads of one object, or fails |
| LocalStore.Store.MergeRemotePayload | localstore/crdt_adapter.go:277-323 | the whole new database after a remote payload |
| LocalStore.Store.PendingEvent | localstore/store.go:456-489 | the oldest outbox row, or none exactly when the outbox is empty |
| LocalStore.Store.SavePreparedUpload | localstore/sync_state.go:84-139 | stages an upload only for the exact queued version and only into an empty slot |
| LocalStore.Store.CommitPreparedUpload | localstore/sync_state.go:141-180 | acknowledges only the exact row and version that were sent, and moves sequence and hash on |
| LocalStore.Store.AdvanceSyncCursor | localstore/sync_state.go:182-204 | moves the cursor forward from the expected value only |
| Relay.SortBatchLaw | sync/internal/server/server.go:619-619 | the batch is sorted by sequence without losing or adding an envelope |
| Relay.Deduplicate | sync/internal/server/server.go:620-638 | one pass over the sorted batch keeps each agreed sequence once and refuses each disputed one once |
| Relay.QueriesReadChain | sync/internal/server/server.go:648-676 | the two table lookups read the device chain: by sequence, and its newest record |
| Relay.Judge | sync/internal/server/server.go:648-690 | an upload is stored exactly when it extends the chain by sequence and hash; otherwise the verdict is the one the stored chain gives |
| Relay.InsertKeepsLog | sync/internal/server/server.go:688-697 | storing an accepted upload keeps every chain at sequences 1..n with matching hashes and cursors increasing |
| Relay.Upload | sync/internal/server/server.go:646-698 | the upload loop grows the chain as far as the batch allows and answers every envelope from the final chain |
| Relay.BuildPage | sync/internal/server/server.go:714-764 | a page is the longest prefix of the later rows within the record and byte limits, and has_more tells whether rows are left |
| Relay.Table.Sync | sync/internal/server/server.go:587-782 | a request is answered as specified or leaves the log unchanged; it succeeds if and only if it is well-formed and both cursors lie within the log its own batch leads to |
| RelayLaws.EverySequenceAnsweredOnce | sync/internal/server/server.go:619-698 | every submitted sequence is in exactly one of accepted and rejected, and no other sequence is in either |
| RelayLaws.ReplayChangesNothing | sync/internal/server/server.go:619-698 | sending the same batch again changes no record and gives the same two lists |
| RelayLaws.RequestLeadsToOneLog | sync/internal/server/server.go:619-707 | a request leads from one log and last cursor to one log, so the condition above does not depend on how it is carried out |
| RelayLaws.ConflictBranchUnreachable | sync/internal/server/server.go:677-682 | a sequence that is not stored lies above the newest stored one, so the guarded conflict below it cannot happen |
| RelayLaws.FollowingTheCursorReadsEverything | sync/internal/server/server.go:714-764 | following next_cursor from 0 while the log grows collects exactly a prefix of the log, in order, each record once |
| RelayLaws.PagesMakeProgress | sync/internal/server/server.go:714-764 | a page respects both limits, is empty exactly when nothing is left, and has_more holds exactly when a later record exists |
| Client.CheckAnswer | syncclient/worker.go:184-213 | the answer is taken exactly when it accepts the staged sequence and nothing else |
| Client.DecodeDownloads | syncclient/worker.go:113-149 | a page decodes exactly when its cursors climb strictly from the request cursor to a next_cursor within 64 bits, and then to its payloads in order |
| Client.HonestPagesAreInOrder | syncclient/worker.go:113-149 | every page of the relay passes the cursor guards, and next_cursor covers exactly the records read |
| Wire.SealedSizeIsValid | protocol/crypto.go:129-153 | every encoding that sealing accepts pads to a ciphertext size the relay accepts |
| Worker.Prepare | syncclient/worker.go:71-111 | keeps a staged upload, otherwise seals and stages the oldest outbox row; fails only when a counter is exhausted or that row is too large to seal, and in the latter case always; its transactions are steps of the protocol |
| Worker.MergePage | syncclient/worker.go:214-222 | merges exactly the payloads of the page, one transaction each, never fails, and keeps outbox and checkpoint |
| Worker.FinishRound | syncclient/worker.go:223-233 | commits the staged upload, removing its row exactly if the version is unchanged, then moves the cursor |
| Worker.SyncOnce | syncclient/worker.go:151-236 | a round against an honest relay fails only when a counter is exhausted or the oldest unstaged record is too large to seal, and in the latter case always, with nothing sent or read; otherwise it leaves nothing staged, removes exactly the sent row, reads one page, and is a run of protocol steps |
| Worker.SyncUntilIdle | syncclient/worker.go:238-258 | success means outbox, staged slot and unread log are empty, within the outstanding work in rounds; with a limit of at least that work it fails only when a counter is exhausted or the oldest record is too large to seal |
| Protocol.MutatedIsTheStoreOperation | localstore/store.go:289-436 | a mutation step of the state machine is the store operation |
| ProtocolLaws.MutationIsInflationary | localstore/store.go:289-436 | every local mutation either writes a state above the old one with a new clock, or writes nothing |
| ProtocolLaws.HonestRelayAccepts | syncclient/worker.go:151-213 | in lockstep the relay accepts exactly the staged upload and stores it at most once, also on a retry |
| ProtocolLaws.ExchangeKeeps | syncclient/worker.go:151-213 | a request keeps the invariant of log and device, whether or not the response arrives |
| ProtocolLaws.MergeKeeps | syncclient/worker.go:214-222 | merging one payload keeps the invariant, also when interrupted after it |
| ProtocolLaws.CommitKeeps | localstore/sync_state.go:141-180 | committing the staged upload keeps the invariant |
| ProtocolLaws.AdvanceKeeps | localstore/sync_state.go:182-204 | moving the cursor keeps the invariant, because everything up to it was absorbed |
| ProtocolLaws.LogGrowthKeeps | sync/internal/server/server.go:688-697 | uploads of other devices keep the invariant |
| Runs.RunsKeepTheInvariant | syncclient/worker.go:151-236 | the invariant of log, stores and workers holds in every state of every run with mutations, retries, lost responses and crashes |
| Runs.ChainLockstep | localstore/sync_state.go:84-178 | in every run the relay chain of a device is 1..n and ends at next_device_sequence-1 with previous_hash, or at next_device_sequence with the still staged envelope |
| Runs.RelayNeverRejects | syncclient/worker.go:184-213 | in every run the relay accepts what a worker sends, stores at most one record for it, and its page passes the worker |
| Runs.CursorSafety | syncclient/worker.go:214-233 | in every run, every record at or below a device cursor is below the state the device holds |
| Runs.NoLostUpdate | localstore/sync_state.go:118-178 | in every run, the latest queued state of each object is in its outbox row or in a relay record |
| Runs.StoresOnlyGrow | localstore/crdt_adapter.go:277-323 | along every run the log only grows at the end and held states only move up |
| Runs.RemoveWins | protocol/crdt.go:70-93 | in every run, after a tombstone the phrase shows only at a strictly larger generation |
| Runs.OnlySavesRaiseGenerations | localstore/store.go:366-436 | selections and deletes never raise a generation past the first |
| Runs.SavesRaiseByOne | localstore/store.go:328-335 | an explicit save writes the phrase present, at most one generation above the held one |
| Runs.GenerationsComeFromSaves | localstore/store.go:328-335 | in every run, an object anywhere past a generation that bounded it at first was written one above that bound by an earlier explicit save |
| Runs.OnlyAnExplicitSaveBringsAPhraseBack | localstore/store.go:328-335 | in every run, a device that held a tombstone and later shows the phrase shows it at a strictly larger generation, which an explicit save of some device wrote, unless a store held that generation before the run |
| Runs.ClocksNeverTurnBack | localstore/crdt_adapter.go:111-170 | along every run the persisted clock metadata never decreases |
| Runs.IssuedClocksIncrease | localstore/crdt_adapter.go:111-170 | a device issues strictly increasing clocks, each later than every clock in every record it holds |
| Convergence.FreshRunsKeepKnowledge | localstore/store.go:246-285 | in runs on an object no store knew at first, what one device knows of another was queued by it, and every record of it is explained by the log and local uses |
| Convergence.ConvergenceTheorem | syncclient/worker.go:214-233 | for an object new at the start, whatever else the stores held: once outboxes and staged slots are empty and all cursors are at the end, every device holds the join of the log if and only if each device queued its uses of it |
| Contributions.HeldStatesAreDerived | localstore/crdt_adapter.go:277-323 | in every run each state above the log and above what a device held at first or added itself is above what it holds |
| Contributions.ContributionsAreHeld | localstore/store.go:246-285 | in every run a device keeps everything it held at first or added, up to the order |
| Contributions.QueueingCatchesUp | localstore/store.go:246-285 | a queued record contains all the device held or added to the object before it |
| Contributions.EveryObjectConvergesIffPublished | syncclient/worker.go:214-233 | in every quiescent world of every run and for every object, held before the run or not: all devices hold the join of the log if and only if the log contains each state that was held at first or added without queueing |
| Contributions.QueuedObjectsConverge | syncclient/worker.go:214-233 | when each device that held or added to an object queued it afterwards, the devices agree and their state contains all that was held at first |
| Convergence.ConvergedDevicesAgree | protocol/crdt.go:97-125 | converged devices hold the same state of every object in the log |
| Convergence.FirstSelectionIsNotQueued | localstore/store.go:366-405 | the first selection of a new phrase is recorded locally and not queued |
| Convergence.FirstSelectionStaysLocal | localstore/store.go:395-404 | a run that ends quiescent and not converged: one selection on a fresh store |
| Liveness.TwoPassesQuiesce | syncclient/worker.go:238-258 | after any run, two passes of successful drains over all devices end with every outbox empty and every cursor at the end of the log |
| Liveness.TwoPassesConverge | syncclient/worker.go:238-258 | after any run, two such passes bring a new object everywhere to the join of the log if and only if no device held an unqueued use when they began |
| Liveness.OversizeRecordBlocksForever | syncclient/worker.go:71-91 | an object none of whose well-formed records can be sealed, once first in line stays first in line whatever anyone does, and its device never uploads or reads again |
| Liveness.LongTextIsOversize | protocol/crypto.go:129-136 | no well-formed record of an object whose text is over the limit can be sealed, since an encoding holds the text |
| Liveness.LongSaveBlocks | localstore/store.go:289-349 | a run that blocks a device: one save of an overlong text on a new store |
| Liveness.TwoPassesConvergeIffPublished | syncclient/worker.go:238-258 | after two passes, any object, whatever the stores held before the run, has converged if and only if the log contains every state that was held or added and not queued |
| Checksum.Polymod | protocol/bech32m.go:17-30 | the nested loops compute the linear checksum recurrence |
| Checksum.RunDifference | protocol/bech32m.go:17-30 | the exclusive or of two checksums over the same values evolves as if the values were zero (linearity) |
| Checksum.MixHasNoKernel | protocol/bech32m.go:17-30 | a step over zero maps no other 30-bit state to zero: the low bits of the five generators are independent |
| Checksum.CheckValues | protocol/bech32m.go:80-88 | six check symbols complete a body exactly when they spell one particular 30-bit number |
| Checksum.SingleErrorDetected | protocol/bech32m.go:17-30 | changing any one value changes the checksum |
| Radix.ConvertBits | protocol/bech32m.go:44-69 | for digit widths up to 8 the output holds the bits of the input: padded with fewer than one digit of zeros, or unpadded, failing exactly when the dropped bits are not fewer than a digit of zeros |
| Radix.FlatDetermines | protocol/bech32m.go:44-69 | digit sequences with the same bits are equal |
| RecoveryKey.ExpandHrp | protocol/bech32m.go:32-42 | the prefix expands to its high bits, a zero and its low bits |
| RecoveryKey.EncodeRecoveryKey | protocol/bech32m.go:71-91 | succeeds exactly on 32 bytes, and then returns a text of the key |
| RecoveryKey.DecodeRecoveryKey | protocol/bech32m.go:93-125 | returns the key of the lower-cased text when the text is not mixed-case and encodes one, and fails exactly when there is none, for any case mapping |
| RecoveryKey.TextDeterminesKey | protocol/bech32m.go:93-125 | a text encodes at most one key |
| RecoveryKey.KeyDeterminesText | protocol/bech32m.go:71-91 | a key has at most one text |
| RecoveryKey.EncodeThenDecode | protocol/bech32m.go:71-125 | decoding the encoding of any 32-byte key returns the key |
| RecoveryKey.DecodeThenEncode | protocol/bech32m.go:71-125 | encoding what a text decodes to returns its lower-case form |
| RecoveryKey.OneCharacterChanged | protocol/bech32m.go:93-125 | changing any one character after the separator, its case included, makes decoding of an ASCII text fail |
| RecoveryKey.ChangeIsMissedIff | protocol/bech32m.go:93-125 | for any character and any case mapping that folds it to one character, the changed text still decodes if and only if it folds to the same text and is not mixed-case |
| RecoveryKey.KelvinSignIsMissed | protocol/bech32m.go:93-125 | such an input: under a case mapping whose Kelvin sign is a capital of k, putting it for a K of an upper-case text leaves the decoded key the same |
| Credentials.Validate | desktopagent/credentials.go:66-109 | the map-walking validation accepts exactly the valid bundles |
| Credentials.EncodeBundle | desktopagent/credentials.go:115-160 | succeeds exactly on valid bundles, with the canonical record; the 64 KiB check never fires |
| Credentials.RecordUnique | desktopagent/credentials.go:132-156 | a bundle has one record, whatever order its maps yield |
| Credentials.RecordSize | desktopagent/credentials.go:120-156 | the exact record length, at most 15539 bytes |
| Credentials.RecordDetermines | desktopagent/credentials.go:203-304 | a byte string is the record of at most one valid bundle |
| Credentials.ReadFixed | desktopagent/credentials.go:208-252 | the fixed fields read are those laid out in the bytes consumed, and a laid-out bundle is always read back |
| Credentials.ReadEpochs | desktopagent/credentials.go:253-275 | reads exactly the epoch tables listed in strictly ascending order |
| Credentials.ReadDevices | desktopagent/credentials.go:276-297 | reads exactly the device tables listed in strictly ascending order |
| Credentials.DecodeBundle | desktopagent/credentials.go:203-304 | accepts exactly the records of valid bundles |
| Credentials.EncodeThenDecode | desktopagent/credentials.go:115-304 | decoding the encoding of any valid bundle returns the bundle |
| Credentials.DecodeThenEncode | desktopagent/credentials.go:115-304 | encoding what any accepted byte string decodes to returns the byte string |
| Records.Reader.Take | desktopagent/credentials.go:169-176 | takes the next bytes, or fails exactly when too few are left and moves nothing |
| Records.Reader.Number | desktopagent/credentials.go:178-192 | reads exactly the big-endian number laid out next, and always reads one that is laid out |
| Records.SortedKeys | desktopagent/credentials.go:132-150 | collects the keys of a map in any order and returns them ascending |
| Records.AscendingUnique | desktopagent/credentials.go:132-150 | a set of keys has one ascending listing |
| PhraseKeys.PrefixIsRange | engine/src/phrase_engine.cpp:123-128 | among letter keys, having a prefix is lying between the prefix and the prefix followed by the byte after z |
| PhraseKeys.LowerBound | engine/src/phrase_engine.cpp:145-159 | the binary search returns the first position whose key is not below the bound |
| PhraseKeys.PrefixRange | engine/src/phrase_engine.cpp:145-159 | the two searches delimit exactly the keys with the prefix |
| PhraseKeys.SortKeys | engine/src/phrase_engine.cpp:570-579 | the same keys in strictly ascending order of key and position |
| PhraseRank.RankingIsAnOrder | engine/src/phrase_engine.cpp:733-765 | the nine-key comparator is a strict order, total on candidates with different ids |
| PhraseRank.RankingUnique | engine/src/phrase_engine.cpp:733-765 | a set of candidates has one ranking, whatever order the match map yields |
| PhraseRank.ApplyQuota | engine/src/phrase_engine.cpp:767-800 | the loops with their selected flags compute: the best of the first page with at most two personal ones, then, only behind a full page, the rest in order |
| PhraseRank.QuotaLaw | engine/src/phrase_engine.cpp:767-800 | at most limit candidates, none twice, the best first, at most two personal ones in the first eight |
| PhraseRank.QuotaIsExhaustive | engine/src/phrase_engine.cpp:767-800 | a page with room left lacks only personal candidates; a full one with room behind it omits nothing |
| PhraseIndex.Build | engine/src/phrase_engine.cpp:511-594 | building succeeds exactly on valid entries with different ids and yields a sorted index over all of them |
| PhraseIndex.AddAlias | engine/src/phrase_engine.cpp:619-638 | the range of one alias adds exactly the matches of that alias; an earlier match stays |
| PhraseIndex.AddCodes | engine/src/phrase_engine.cpp:640-655 | adds exactly the code-only entries whose complete code is the query |
| PhraseIndex.AddInitials | engine/src/phrase_engine.cpp:657-668 | adds exactly the unmatched ordinary entries whose initials start with the query |
| PhraseIndex.FindMatches | engine/src/phrase_engine.cpp:596-668 | the three lookups classify every entry as the naive scan does |
| PhraseIndex.Passes | engine/src/phrase_engine.cpp:675-717 | a match is let through exactly when it is alive, used enough, and long phrases show two complete syllables or, pinned, four initials |
| PhraseIndex.Index.Query | engine/src/phrase_engine.cpp:596-801 | for every index, alias list and limit the result is the naive scan of all entries, gated, ranked and cut by the quota |
| PhraseIndex.AnswerUnique | engine/src/phrase_engine.cpp:596-801 | a query has one answer |
| PhraseIndex.AnswerLaw | engine/src/phrase_engine.cpp:596-801 | every answer has different ids, comes from the scan, starts with the best match and has at most two personal entries in the first eight |
| PhraseIndex.Index.ApplyTombstone | engine/src/phrase_engine.cpp:803-813 | hides exactly the entry with the id; the revision moves exactly when something changed |
| PhraseIndex.TombstoneHides | engine/src/phrase_engine.cpp:675-680 | no scan, and so no query, returns a tombstoned entry |
| PhraseIndex.Index.ApplyCorrectionFeedback | engine/src/phrase_engine.cpp:815-850 | moves exactly that score by the clamped feedback, within the limits; the revision moves exactly when something changed |
| ScoreLimits.ClampedFeedbackIsExactUnless | engine/src/phrase_engine.cpp:815-850 | feedback clamped before it is added gives the clamped exact sum if and only if it is within the limits or pushes the score away from zero |
| ScoreLimits.LargeFeedbackFallsShort | engine/src/phrase_engine.cpp:815-850 | an input on which it does not: two million on the lowest score |
| Segmenter.SegmentChunk | engine/src/phrase_engine.cpp:322-367 | refuses empty, overlong and zero-limit input, keeps a bounded syllable whole, and otherwise returns the search list cut at the path limit |
| Segmenter.Search.Visit | engine/src/phrase_engine.cpp:335-364 | the recursive search appends, up to the limit, the current path continued in every way, and restores the path |
| Segmenter.SearchIsExact | engine/src/phrase_engine.cpp:335-364 | the search list holds exactly the segmentations into listed syllables within the syllable limit |
| Segmenter.SearchIsInOrder | engine/src/phrase_engine.cpp:348-362 | it is strictly ordered: where two paths part, the earlier one has the longer syllable |
| Segmenter.CutKeepsTheFirst | engine/src/phrase_engine.cpp:335-366 | the cut list holds segmentations only, each once, longest first; one it leaves out comes after all it holds, and only when it is full |
| Segmentation.Combine | engine/src/phrase_engine.cpp:406-425 | the two loops over prefixes and chunk paths give the product in order, without paths over the syllable limit, cut at the path limit |
| Segmentation.Segment | engine/src/phrase_engine.cpp:369-432 | refuses unusable input and otherwise combines the chunks one after the other, cut after each |
| Segmentation.SegmentIsSound | engine/src/phrase_engine.cpp:399-431 | every path returned consists of one path of each chunk, so it crosses no boundary, spells the text in listed syllables and is within the syllable limit |
| Segmentation.SegmentIsFrontOfProduct | engine/src/phrase_engine.cpp:399-431 | when the text has no more letters than a path may have syllables, the result is exactly the front of the product of all paths of all chunks: the cuts along the way change nothing |
| Segmentation.UncappedIsEverything | engine/src/phrase_engine.cpp:399-431 | when that product is within the path limit, the result is every combination within the syllable limit |
| Segmentation.SyllableLimitLosesPaths | engine/src/phrase_engine.cpp:406-429 | an input where both limits bind and the result is empty, though a segmentation within them exists |
| FuzzyAliases.SwapIsUndoneIff | engine/src/phrase_engine.cpp:173-213 | swapping a pair twice gives the value back if and only if the long form is gone after the first swap or was not there |
| FuzzyAliases.ExpandPair | engine/src/phrase_engine.cpp:161-213 | one pair extends the list by the valid swaps of a snapshot, in order, up to the limit |
| FuzzyAliases.FuzzyVariants | engine/src/phrase_engine.cpp:215-239 | the list of variants is the enabled pairs applied in order |
| FuzzyAliases.VariantsAreReached | engine/src/phrase_engine.cpp:161-239 | the list starts with the syllable, has no repeats and holds only values reached through listed syllables by the pairs in order; below the limit it holds exactly these |
| FuzzyAliases.VariantsAreOneWay | engine/src/phrase_engine.cpp:215-239 | being a variant is not symmetric: leng gives nen, but nen does not give leng, as len is not a syllable |
| FuzzyAliases.Concatenate | engine/src/phrase_engine.cpp:471-483 | the two loops over prefixes and variants give the product in order, cut at the limit |
| FuzzyAliases.SpellPath | engine/src/phrase_engine.cpp:467-488 | the spellings of a path are the front of the product of all variants: the cuts after each syllable change nothing |
| FuzzyAliases.SpellingsAreExact | engine/src/phrase_engine.cpp:467-488 | each is one variant of every syllable in order, and below the limit the list holds exactly these |
| FuzzyAliases.ExpandAliases | engine/src/phrase_engine.cpp:449-500 | the result is nothing, the literal alone, or the literal and the unseen spellings of every path in order up to the limit |
| FuzzyAliases.AliasesAreExact | engine/src/phrase_engine.cpp:449-500 | the literal is first, nothing repeats, the limit holds, every other alias is a spelling of a path; where no list is full the aliases are exactly these |
| FuzzyAliases.AliasesOfEveryPath | engine/src/phrase_engine.cpp:369-500 | where no limit binds, the aliases are exactly the literal and the spellings of every combination of paths of the chunks |
| FuzzyAliases.AliasesAreValidated | engine/include/yunpin/phrase_engine.hpp:117-119 | every alias after the literal is a complete path of listed syllables within the syllable limit |
| CorrectionLearning.Learning.RecordSelection | engine/src/correction_learning.cpp:261-316 | the whole new state: recorded, slots, table and the correction completed |
| CorrectionLearning.Learning.UndoLastSelection | engine/src/correction_learning.cpp:318-327 | moves the last selection into the pending slot, or clears both |
| CorrectionLearning.CountSelection | engine/src/correction_learning.cpp:268-294 | one saturating selection for one key, all other counts unchanged |
| CorrectionLearning.CountCorrection | engine/src/correction_learning.cpp:296-311 | one saturating correction from one key to another, all other counts unchanged |
| SessionLearning.StatusAdvances | librime-yunpin/src/session_learning.cpp:178-270 | how deletion in progress and awaited replacement of a trace move with each event |
| SessionLearning.StatusUnique | librime-yunpin/src/session_learning.cpp:178-270 | a trace is in exactly one state |
| SessionLearning.CorrectedByStatus | librime-yunpin/src/session_learning.cpp:188-214 | a commit corrects exactly the entry whose replacement is awaited |
| SessionLearning.ScoreChangesExactlyOnCorrection | librime-yunpin/src/session_learning.cpp:153-176 | for every trace, event and entry the score changes exactly when a commit completes a correction: minus one for the replaced entry, plus one for the replacement, saturating, and only if the table has the entry or room for it |
| SessionLearning.ViewFollows | librime-yunpin/src/session_learning.cpp:129-151 | the outer phase and the inner slots are those the trace calls for, after every event |
| SessionLearning.Session.ObserveCommit | librime-yunpin/src/session_learning.cpp:178-215 | phase, slots, tables and scores stay what the trace calls for |
| SessionLearning.Session.ObserveUnhandledKey | librime-yunpin/src/session_learning.cpp:217-242 | phase, slots, tables and scores stay what the trace calls for |
| SessionLearning.Session.ObserveComposition | librime-yunpin/src/session_learning.cpp:244-270 | phase, slots, tables and scores stay what the trace calls for |
| SessionLearning.Session.BreakAdjacency | librime-yunpin/src/session_learning.cpp:272-275 | phase, slots, tables and scores stay what the trace calls for |
| SessionLearning.Session.CorrectionScore | librime-yunpin/src/session_learning.cpp:277-287 | the score is that of the whole trace |
| MergedStream.RankedIsAStableSort | librime-yunpin/src/rime_yunpin_filter.cpp:357-361 | the re-ranked window is a permutation, highest score first, equal scores in order |
| MergedStream.TextsAreConserved | librime-yunpin/src/rime_yunpin_filter.cpp:301-411 | everything emitted is injected or an unhidden upstream candidate, and every injected and unhidden upstream text is emitted, but for corrections under protection |
| MergedStream.AtMostOneCorrection | librime-yunpin/src/rime_yunpin_filter.cpp:413-458 | under protection at most one correction is ever emitted |
| MergedStream.CorrectionIsPreceded | librime-yunpin/src/rime_yunpin_filter.cpp:413-458 | an ordinary upstream candidate precedes it, and it is second or third overall when nothing is promoted |
| MergedStream.StreamIsAPermutation | librime-yunpin/src/rime_yunpin_filter.cpp:327-364 | when nothing is promoted, the output is a permutation of the private phrases, the unsuppressed upstream candidates (the ordinary ones under protection) and at most one correction |
| MergedStream.Merged.TakeWindow | librime-yunpin/src/rime_yunpin_filter.cpp:327-355 | the window is the unsuppressed part, and the evidence the first unhidden eight, of exactly the upstream front the first page takes |
| MergedStream.TakesJustEnough | librime-yunpin/src/rime_yunpin_filter.cpp:327-355 | that front is the shortest whose unsuppressed candidates fill the page, or all of upstream |
| MergedStream.PromotionIsPromotable | librime-yunpin/src/rime_yunpin_filter.cpp:366-411 | the first eligible evidence is ordinary, taken from upstream and not guard-hidden, as the laws of the stream ask |
| MergedStream.Merged.SkipSuppressedUpstream | librime-yunpin/src/rime_yunpin_filter.cpp:317-325 | skips exactly the suppressed candidates at the head |
| MergedStream.Merged.ProtectLongCorrections | librime-yunpin/src/rime_yunpin_filter.cpp:413-458 | rewrites the window to its protected form |
| MergedStream.Merged.PromoteLearnedUpstream | librime-yunpin/src/rime_yunpin_filter.cpp:366-411 | promotes the first eligible evidence, if the head may give way, replacing everything with its text, and changes nothing otherwise |
| MergedStream.Merged.constructor | librime-yunpin/src/rime_yunpin_filter.cpp:229-245 | the whole output is one function of upstream, private phrases, flags and scores |
| MergedStream.Merged.Peek | librime-yunpin/src/rime_yunpin_filter.cpp:269-281 | shows the head of what remains |
| MergedStream.Merged.Next | librime-yunpin/src/rime_yunpin_filter.cpp:247-267 | drops exactly what Peek shows |
| ReplayRing.StepKeeps | librime-yunpin/src/replay_native.cpp:241-300 | every load, store, half copy or counter step of producer or consumer keeps the ring invariant |
| ReplayRing.RingIsFifo | librime-yunpin/src/replay_native.cpp:241-268 | in every interleaving the popped events are a prefix of the accepted ones and the rest, at most 63, lie in the ring in order |
| ReplayRing.NoSlotRace | librime-yunpin/src/replay_native.cpp:241-268 | in every interleaving the slot being read is not the one being written and holds the oldest accepted event throughout |
| ReplayRing.DeliveredInOrder | librime-yunpin/src/replay_native.cpp:270-300 | in every interleaving events are delivered in order, at most once, and those left out are the ones that did not fit |
| ReplayRing.EveryAttemptAccounted | librime-yunpin/src/replay_native.cpp:241-300 | enabled attempts are those delivered, queued, pending as drops or reported as drops, with what is in flight named |
| ReplayRing.RefusedOnlyWhenFull | librime-yunpin/src/replay_native.cpp:249-256 | a valid event is refused exactly when 63 events are waiting |
| ReplayRing.NativeProducer.TryPush | librime-yunpin/src/replay_native.cpp:241-258 | appends exactly when enabled, valid and fewer than 63 wait; otherwise counts a drop if enabled |
| ReplayRing.NativeProducer.TryPop | librime-yunpin/src/replay_native.cpp:260-268 | removes the oldest event, or fails exactly when none waits |
| ReplayRing.NativeProducer.DrainJson | librime-yunpin/src/replay_native.cpp:270-300 | does nothing without an output; reports pending drops first; otherwise delivers the oldest event that fits and counts those before it |
| TypoCorrection.EditsChange | librime-yunpin/src/typo_correction.cpp:114-184 | every single edit differs from the typed prefix and stays within the length limits |
| TypoCorrection.ResultIsExact | librime-yunpin/src/typo_correction.cpp:75-187 | a sound and complete result is exactly the set of spellings one enabled edit away, each once, at its cheapest cost, never the unchanged prefix |
| TypoCorrection.DefaultsNeverTruncate | librime-yunpin/src/typo_correction.cpp:75-187 | with six letters per syllable there are at most 629 additions, fewer than the cap of 768 |
| TypoCorrection.Generator.Add | librime-yunpin/src/typo_correction.cpp:96-112 | adds a spelling or lowers the cost of the variant that has it |
| TypoCorrection.LeadingLowerAscii | librime-yunpin/src/typo_correction.cpp:55-63 | the length of the leading run of letters within the limit |
| TypoCorrection.GenerateTypoVariants | librime-yunpin/src/typo_correction.cpp:75-187 | for all inputs and options the result is sound and capped, and complete whenever the cap is at least the bound for the syllable limit or no edit can exist |
| ReplaySequence.Checker.Accept | replaylab/sequence.go:22-116 | admits exactly the events that may follow the stream so far, and changes nothing on the others |
| ReplaySequence.MemoryDecides | replaylab/sequence.go:22-116 | the remembered fields decide admissibility of the next event as the whole history does |
| ReplaySequence.StreamIsNumbered | replaylab/sequence.go:22-116 | every accepted stream has sequence numbers 1..n in one session that starts with resume, and clocks that never move back |
| ReplaySequence.EpisodesAreBlocks | replaylab/sequence.go:51-58 | every episode of an accepted stream is one contiguous block |
| ReplaySequence.EpisodesAreBounded | replaylab/sequence.go:55-62 | an accepted stream has at most a million episodes |
| ReplayReport.TallyIsExact | replaylab/report.go:54-111 | the counters of one-episode memory are sums over the whole stream |
| ReplayReport.HistogramSumsToSelections | replaylab/report.go:79-104 | the rank histogram sums to the candidate selections |
| ReplayReport.MarkFirstEdit | replaylab/report.go:145-162 | the first edit of an episode fixes what had been offered, later edits do not |
| ReplayReport.HighlightedRank | replaylab/report.go:192-202 | the one-based rank of the first highlighted candidate, or zero |
| ReplayReport.ShowsCorrectionFirst | replaylab/report.go:75-77 | a correction leads an exact composition that also has an ordinary candidate |
| ReplayReport.Analyzer.Accept | replaylab/report.go:54-111 | accepts exactly the admissible events and keeps counters, episode memory and episode counts exact |
| ReplayReport.Analyzer.Finish | replaylab/report.go:113-127 | the final report is exact: distinct episodes, distinct edited episodes, all sums; asking again changes nothing |
| ReplayReport.Analyze | replaylab/report.go:135-143 | succeeds exactly on accepted streams, with an exact report |

## Left out

- Canonicalisation of text and pinyin (trimming, Unicode normalisation, NormalizePinyin): texts and pinyin are taken as already canonical.
- Ed25519, X25519, XChaCha20-Poly1305, HKDF, SHA-256, CBOR, base64 and JSON: library code, idealised as above.
- SQLite, HTTP, JSON decoding, rate limiting, TLS and logging: tables are maps and each transaction one step.
- The device acknowledgement cursor stored by the relay: it is checked on input; its stored value feeds nothing that is modelled.
- Pairing, account and keyring endpoints: single guarded updates, easy beside the sync handler.
- AckPending of the store: the worker never calls it.
- Session and key validation of the worker: the model starts from a valid session.
- Text, source and last-used day of a phrase are kept by the store but not claimed to converge, since saves and selections overwrite them.
- Device.IssuedClockIsLater: wall time is unbounded here and in all run theorems; Device.ClockNeedsHeadroom gives the 64-bit condition.
- LocalStore.Store.NextHlc: the same.
- DeviceLaws.MergeRemoteLaw: stored records have no metadata or all of it; DeviceLaws.MergeRemoteSucceedsIff covers partial metadata.
- Convergence.ConvergenceTheorem: speaks of objects that no store knew at the start; Contributions.EveryObjectConvergesIffPublished covers the others.
- DeviceLaws.SelectionAdvances: requires a fresh phrase from the caller, because a selection of an absent record keeps the caller's CRDT fields.
- RecoveryKey.OneCharacterChanged: ASCII texts and characters; RecoveryKey.ChangeIsMissedIff covers the others.
- RecoveryKey.EncodeThenDecode: assumes the case mapping is the ASCII one on ASCII texts.
- ReplayRing.NativeProducer.DrainJson: the drop counter is unbounded.
- Weak memory effects of the C++ atomics: interleavings are sequentially consistent.
- ReplaySequence.Checker.Accept: of event validation only the rules the stream logic relies on; text and size limits only narrow what is accepted.
- ReplayReport.Analyzer.Finish: the mean rank, a floating-point quotient of two exact counters, and the suggestion texts.
- MergedStream.Merged.constructor: upstream is a finite list without null candidates; malformed UTF-8 texts are not modelled.
- PhraseIndex.Index.Query: aliases are a parameter, whose first is the query, as FuzzyAliases.AliasesAreExact shows of the generated list.
- Segmentation.Segment: chunks are given as split and normalised, like the query of the index.
- Segmentation.SegmentIsFrontOfProduct: gives a sufficient condition; which combinations survive when both limits bind depends on every cut.
- PhraseIndex.Index.ApplyCorrectionFeedback: the compare-and-swap loop is one step, and the revision counter is unbounded.
- CorrectionLearning.Learning.RecordSelection: the content filters are a parameter; habit reports are not modelled.
- Keychain and DPAPI stores, paths, process locks, runner timing, librime registration and snapshot loading: foreign calls and I/O.
- Replay store files, the native event converter, importers, release scripts, command lines and the icon renderer: no hard property.
