# Verified model of the TV receiver's CAS plugin and SI engine

This project models the parts of the receiver in which order, time and bytes interact, and proves
what they promise.

* **Keys** (`KeyCells`, `SeqLock`, `KeyRegistry`, `SlotReaders`, `StateCodec`, `Backend`, `BackendRuns`,
  `BackendObject`, `Section`). Descrambling keys are published through a sequence lock in shared
  memory, handed out by a registry of 64 slots and replaced by updates that are committed to a file
  before they are applied. The sequence lock is a machine of single atomic accesses by one writer and
  any number of readers, and `SlotReaders` puts the registry's stores into it. The backend is a machine of single steps, with process death and power cuts
  possible between any two of them; the object in `BackendObject` is proved to take exactly those steps.
* **Tables** (`Crc`, `SectionTracking`, `Calendar`, `EitEvents`, `EitInstances`, `Discovery`,
  `DiscoveryEngine`, `Provenance`, `Collector`, `SectionStreams`). Sections arrive in any order, repeated, damaged or contradictory.
  Event tables are compared with the set of sections of one version, service discovery with a plain
  join of tables, and what it shows is traced back to the sections it comes from.
* **Bits and text** (`BitStrings`, `AudioConfig`, `AdtsProbe`, `AudioReader`, `AribText`,
  `AribDecoder`, `ExtendedEvent`). A program_config_element is moved to another bit alignment; 8-bit
  coded text is read strictly or with replacement characters, and continued over fragments.
* **Provider data** (`Utf8`, `Truncation`, `Finalize`). Data is dropped and cut until it fits, with an
  account of what went and a text that records its own length.

`dafny verify dfyconfig.toml` checks all of it.

## How the code is represented

* Bytes are integers from 0 to 255, masks and shifts are written with `/` and `%`. Where bits matter,
  in the checksum register and in audio configurations, a word is the list of its bits, most
  significant first.
* Classes and loops of the original are classes and loops here. Each is proved equal to a function on
  values (`After...`, `...Of`, a recursive reading), and the results are lemmas about those functions.
* Atomic accesses are sequentially consistent, as in the original. Locks are not modelled: the steps
  between taking and releasing the backend's mutex are separate steps, and `Free` is the phase in which
  nobody holds it.
* Inputs stand for what comes from outside: random tokens, whether shared memory could be mapped, how a
  commit ends, what credential loading finds, whether a file can be read. Null out-pointers and timeouts of
  locks are not inputs.
* `Cipher` stands for the foreign key code: decoding, and registering a key in a group. It is assumed
  that decoding an ECM reads the keys of its own group only, and that registering puts the key under its
  id, may forget older ids of its bucket and leaves everything else alone.
* Text lengths stay below 2^62, as every allocation does.

## Where the code does not keep a promise

* `Discovery.PidDependsOnOrder`: a service that is named after its program's association entry, and has no
  map table yet, has no PID, while one named before has. `Discovery.IncrementalIsBatch` says exactly when.
* `Discovery.AmbiguityKeepsOldFacts`: with two services for one program the facts shown can be old.
  `Provenance.AmbiguousShows` says exactly what is shown instead; with one service the join always holds.
* `Provenance.WithdrawalCanMiss`: a map table that is withdrawn, because it contradicts itself or has a new
  version, while its program is mapped to another PID is shown again once the program is mapped back.
  `Provenance.ShowsWithdrawnIff` says exactly when.
* `SectionStreams` gives, for each of these three, the sections that bring it about, checksums included.
* `AribText.NulSeamExists`, `AribText.CutCharacterExists`: an item continued over fragments can differ from
  its joined bytes. `ExtendedEvent.PartsReadAsJoined` and `ExtendedEvent.OkIffBorders` say exactly when.
* `Truncation.WideHexIsMiscounted`: linkage data that is not ASCII can be miscounted by the report of
  removed bytes. `Truncation.HexReportIff` says exactly which.

## Model

| member | source | states |
|---|---|---|
| `KeyCells.StoreContents` | cas_plugin/src/SharedSlot.cpp:15-34 | A finished store publishes exactly its argument; with the sequence used up it publishes nothing, for ever. |
| `KeyCells.SharedKeyState.constructor` | cas_plugin/src/SharedSlot.cpp:58-76 | A new cell is empty, with sequence zero. |
| `KeyCells.SharedKeyState.Store` | cas_plugin/src/SharedSlot.cpp:15-34 | The store in place, with its result, is the specified cell: odd sequence, four words, validity, even sequence, and the stuck maximum. |
| `SeqLock.StoreStepsRefineAfterStore` | cas_plugin/src/SharedSlot.cpp:15-34 | The store taken one atomic access at a time ends as the store in one piece, from every reachable state. |
| `SeqLock.StepKeepsInv` | cas_plugin/src/SharedSlot.cpp:15-56 | Every interleaved step of the writer and of any reader keeps the protocol invariant, and the sequence never decreases. |
| `SeqLock.RunKeepsInv` | cas_plugin/src/SharedSlot.cpp:15-56 | The invariant holds at every instant of every interleaving. |
| `SeqLock.SnapshotIsLinearizable` | cas_plugin/src/SharedSlot.cpp:36-56 | Every answer of a snapshot is what the cell offered at an instant inside the call: the secret for Ok, nothing for NoLicense, an exhausted cell for SessionClosed. |
| `SeqLock.SnapshotReturnsOneStoredValue` | cas_plugin/src/SharedSlot.cpp:15-56 | The sixteen bytes of an Ok answer are the argument of one earlier store call, never a mixture. |
| `SeqLock.PublishedWasStored` | cas_plugin/src/SharedSlot.cpp:15-34 | Everything ever published was the argument of a store call in the same run. |
| `SeqLock.AnswerIsAnEntry` | cas_plugin/src/SharedSlot.cpp:36-56 | Every answer other than Busy tells an entry of the history of published values that was in place before the call ended and not replaced when it began. |
| `SeqLock.SnapshotsDoNotGoBack` | cas_plugin/src/SharedSlot.cpp:15-56 | Of two calls, one ending before the other begins, by the same or by different readers, the second tells the same entry of the history as the first or a later one; after SessionClosed only SessionClosed follows. |
| `SeqLock.ClosedForGood` | cas_plugin/src/SharedSlot.cpp:36-56 | A call that begins on an exhausted cell answers SessionClosed. |
| `SeqLock.SequenceIsMonotone` | cas_plugin/src/SharedSlot.cpp:15-34 | The sequence never wraps and never goes back over any run. |
| `SeqLock.RevokedCellIsUnreadable` | cas_plugin/src/SharedSlot.cpp:36-56 | A snapshot during which nothing is published cannot answer Ok. |
| `SeqLock.NothingAppears` | cas_plugin/src/SharedSlot.cpp:15-34 | With nothing published, no store under way and none of a secret to come, nothing is ever published. |
| `SeqLock.NoKeysAfterClearing` | cas_plugin/src/SharedSlot.cpp:36-56 | From then on no call that begins answers Ok, whatever stores of nothing it overlaps. |
| `SeqLock.RunTracks` | cas_plugin/src/SharedSlot.cpp:15-34 | At every instant of every run the memory is what the finished stores, in order, and the part done of the one under way make of it. |
| `SeqLock.SnapshotEnds` | cas_plugin/src/SharedSlot.cpp:36-56 | Every reader step brings the call closer to its end; a call has at most 28 steps. |
| `SeqLock.TakeSnapshot` | cas_plugin/src/SharedSlot.cpp:36-56 | The retry loop takes exactly the steps of the reader machine, whatever memory holds at each load. |
| `SeqLock.UncontendedSnapshot` | cas_plugin/src/SharedSlot.cpp:36-56 | With no store in progress the first attempt answers, with the contents of the cell. |
| `KeyRegistry.StepKeepsInv` | cas_plugin/src/KeyRegistry.cpp:14-58 | Open, close, update, drop, invalidateGroup and revokeAll keep the registry invariant. |
| `KeyRegistry.RunKeepsInv` | cas_plugin/src/KeyRegistry.cpp:14-109 | The invariant holds over every run from the empty registry. |
| `KeyRegistry.AtMostCapacityLive` | cas_plugin/src/KeyRegistry.cpp:14-40 | In every reachable state at most 64 slots are live, and each of them is in the table. |
| `KeyRegistry.TokensAreNeverReissued` | cas_plugin/src/KeyRegistry.cpp:14-40 | A token given to one slot is never given to another in any continuation, and is never zero. |
| `KeyRegistry.DeadSlotStaysUnreadable` | cas_plugin/src/KeyRegistry.cpp:42-58 | A slot that is not live, or no longer held, is unreadable from then on. |
| `KeyRegistry.CloseIsFinal` | cas_plugin/src/KeyRegistry.cpp:42-47 | After close the slot is unreadable, at once and in every continuation. |
| `KeyRegistry.RevokeAllIsFinal` | cas_plugin/src/KeyRegistry.cpp:100-109 | After revokeAll no slot made so far is readable, at once and in every continuation. |
| `KeyRegistry.InvalidatedGroupIsUnreadable` | cas_plugin/src/KeyRegistry.cpp:90-98 | invalidateGroup makes the slots of the group unreadable and leaves the others untouched. |
| `KeyRegistry.FirstVacant` | cas_plugin/src/KeyRegistry.cpp:14-40 | The first entry that is empty, expired or not live. |
| `KeyRegistry.Draw` | cas_plugin/src/KeyRegistry.cpp:14-40 | The first unused non-zero token among the draws, none when a draw fails first. |
| `KeyRegistry.Keys.constructor` | cas_plugin/src/KeyRegistry.cpp:9-12 | An empty table of 64 entries. |
| `KeyRegistry.Keys.Open` | cas_plugin/src/KeyRegistry.cpp:14-40 | The scanning loops open a slot exactly when there is a vacant entry, a usable token and memory; otherwise Busy and nothing changes. |
| `KeyRegistry.Keys.Close` | cas_plugin/src/KeyRegistry.cpp:42-47 | The slot is dead and cleared, nothing else changes. |
| `KeyRegistry.Keys.Update` | cas_plugin/src/KeyRegistry.cpp:49-58 | Ok exactly when the slot was live and now holds the keys; the group is recorded. |
| `KeyRegistry.Keys.InvalidateGroup` | cas_plugin/src/KeyRegistry.cpp:90-98 | The loop clears exactly the held, listed slots of the group. |
| `KeyRegistry.Keys.RevokeAll` | cas_plugin/src/KeyRegistry.cpp:100-109 | The loop kills and clears exactly the held, listed slots. |
| `KeyRegistry.Keys.Bind` | cas_plugin/src/KeyRegistry.cpp:74-88 | Without a live slot of that token SessionClosed; with one, SessionClosed for an exhausted cell, NoLicense without keys, Busy without a descriptor, otherwise Ok and the descriptor. |
| `SlotReaders.CellIsStores` | cas_plugin/src/KeyRegistry.cpp:14-58 | In every registry run the cell of a slot is a fresh cell after exactly the stores that the operations made on it, in order. |
| `SlotReaders.DeadIsOnlyCleared` | cas_plugin/src/KeyRegistry.cpp:42-109 | After a slot is closed, dropped or revoked the registry stores nothing but emptiness in it. |
| `SlotReaders.NoReaderAfterDeath` | cas_plugin/src/KeyRegistry.cpp:42-109 | Once a slot is dead and the stores so far are through, no reader that begins afterwards gets keys, for every interleaving of its single loads with the stores still to come. |
| `SlotReaders.CloseAndRevokeKill` | cas_plugin/src/KeyRegistry.cpp:42-109 | Close, drop and revokeAll make the slot dead. |
| `StateCodec.LoadOfCommit` | cas_plugin/src/YakisobaState.cpp:96-158 | Loading what commit encodes gives back the state, for every well-formed state. |
| `StateCodec.CommitOfLoad` | cas_plugin/src/YakisobaState.cpp:96-158 | Every file that loads is the encoding of the state it loads to: re-encoding gives the same bytes. |
| `StateCodec.EncodedSize` | cas_plugin/src/YakisobaState.cpp:136-158 | A well-formed state encodes to at most 2186 bytes, so the size check never refuses it. |
| `StateCodec.AppendBytes` | cas_plugin/src/YakisobaState.cpp:32-36 | Bytes are appended with nothing else changed. |
| `StateCodec.CommitKeys` | cas_plugin/src/YakisobaState.cpp:136-158 | The loop over work keys appends their encoding. |
| `StateCodec.CommitGroup` | cas_plugin/src/YakisobaState.cpp:136-158 | One group is appended, or refused when its message is too long. |
| `StateCodec.CommitGroups` | cas_plugin/src/YakisobaState.cpp:136-158 | The loop over groups appends their encodings. |
| `StateCodec.CommitBytes` | cas_plugin/src/YakisobaState.cpp:136-158 | The encoder in place yields the encoding of exactly the well-formed states and refuses the others. |
| `StateCodec.LoadKeys` | cas_plugin/src/YakisobaState.cpp:96-133 | The key loop, whose cursor stays in range, is the key parser. |
| `StateCodec.LoadGroup` | cas_plugin/src/YakisobaState.cpp:96-133 | The group parser with its cursor. |
| `StateCodec.LoadBytes` | cas_plugin/src/YakisobaState.cpp:96-133 | The parser in place accepts and yields exactly what the specification does, including the check that nothing is left over. |
| `Backend.JudgeOk` | cas_plugin/src/YakisobaBackend.cpp:157-208 | An accepted update names its group, carries a newer number and only keys that the group table allows. |
| `Backend.GroupIndex` | cas_plugin/src/YakisobaBackend.cpp:41-46 | The position of a known group code, or the number of groups. |
| `Backend.NextBaseOk` | cas_plugin/src/YakisobaBackend.cpp:210-221 | Applying an accepted update to the saved state keeps every saved key newest in its bucket and compatible with the credentials. |
| `Backend.RestoreNeverClashes` | cas_plugin/src/YakisobaBackend.cpp:85-115 | Registering the saved keys of any state that accepted updates lead to never meets a clash with the credentials. |
| `Backend.InitialInv` | cas_plugin/src/YakisobaBackend.cpp:64-69 | A process that starts with an empty registry and no file meets the invariant. |
| `Backend.InitializeInv` | cas_plugin/src/YakisobaBackend.cpp:117-142 | Initialization with any credential and file outcome keeps the backend invariant. |
| `Backend.RecoverInv` | cas_plugin/src/YakisobaBackend.cpp:85-115 | In every reachable state the file that is there leads back to the state its updates lead to, with tables that fit, or the backend fails closed. |
| `Backend.DecodeInv` | cas_plugin/src/YakisobaBackend.cpp:144-155 | Decoding an ECM keeps the invariant. |
| `Backend.PublishInv` | cas_plugin/src/YakisobaBackend.cpp:144-155 | Publishing decoded keys keeps the invariant: what becomes readable is fresh. |
| `Backend.ReceiveInv` | cas_plugin/src/YakisobaBackend.cpp:157-208 | Judging a message keeps the invariant. |
| `Backend.RenameInv` | cas_plugin/src/YakisobaBackend.cpp:223-225 | Replacing the file keeps the invariant: the file holds the log with the new update. |
| `Backend.SyncInv` | cas_plugin/src/YakisobaBackend.cpp:223-225 | A durable rename keeps the invariant. |
| `Backend.SyncFailedInv` | cas_plugin/src/YakisobaBackend.cpp:223-225 | A rename that may be lost fails closed and keeps the invariant. |
| `Backend.CommitUnchangedInv` | cas_plugin/src/YakisobaBackend.cpp:223-224 | A commit that changed nothing keeps the invariant. |
| `Backend.RegisterInv` | cas_plugin/src/YakisobaBackend.cpp:227-229 | Registering the keys of a durable update one by one keeps the invariant. |
| `Backend.InvalidateInv` | cas_plugin/src/YakisobaBackend.cpp:230-232 | Invalidating the group brings its slots in line with the new keys. |
| `Backend.SessionInv` | cas_plugin/src/KeyRegistry.cpp:14-58 | Sessions that open, close and drop slots at any time keep the invariant. |
| `Backend.RestartInv` | cas_plugin/src/YakisobaBackend.cpp:117-142 | Process death or a power cut at any instant leads to a state that meets the invariant. |
| `Backend.StepInv` | cas_plugin/src/YakisobaBackend.cpp:79-233 | Every step of the backend, of sessions and of crashes keeps the invariant. |
| `BackendRuns.RunInv` | cas_plugin/src/YakisobaBackend.cpp:79-233 | The invariant holds over every run with crashes and restarts anywhere. |
| `BackendRuns.AllSourced` | cas_plugin/src/YakisobaBackend.cpp:117-233 | At every instant of every run each readable slot either belongs to the group being replaced, or shows keys decoded for it at some earlier step with no restart and no step of an update of its group since. |
| `BackendRuns.ReadableKeysAreFresh` | cas_plugin/src/YakisobaBackend.cpp:144-155 | Whenever the mutex is free, the keys of each readable slot were decoded from an ECM received for this very slot and group at an earlier step, with no restart and no rename, sync, registration or invalidation of that group since; and the work keys in force now still decode an ECM to them. |
| `BackendRuns.FailedClosedStaysClosed` | cas_plugin/src/YakisobaBackend.cpp:79-83 | After failClosed no slot is or becomes readable before a restart. |
| `BackendRuns.CrashConsistent` | cas_plugin/src/YakisobaBackend.cpp:210-232 | At every instant the file, and what a power cut would leave of it, is the outcome of a prefix of the accepted updates. |
| `BackendRuns.CommitWasAccepted` | cas_plugin/src/YakisobaBackend.cpp:157-210 | A commit in progress goes back to a received message whose verdict was to accept this update, in the same state and log, with only sessions in between. |
| `BackendRuns.LogGrowsByAcceptedUpdates` | cas_plugin/src/YakisobaBackend.cpp:157-233 | An update enters the log only by the rename of a commit, which goes back to a received message judged acceptable against the very state that the log leads to. |
| `BackendRuns.MemoryEqualsDisk` | cas_plugin/src/YakisobaBackend.cpp:85-115 | While the backend serves and its mutex is free, loading the file gives the state in memory. |
| `BackendRuns.RestartNeverClashes` | cas_plugin/src/YakisobaBackend.cpp:85-115 | A restart at any instant loads the file and no saved id or key makes it fail closed: it comes up with the replayed state unless registering fails. |
| `BackendRuns.NumbersIncrease` | cas_plugin/src/YakisobaBackend.cpp:173-179 | Within one group the numbers of the updates on disk strictly increase. |
| `BackendObject.CommitInv` | cas_plugin/src/YakisobaBackend.cpp:223-232 | Commit, registration and invalidation in one operation keep the invariant and leave the mutex free. |
| `BackendObject.MessageInv` | cas_plugin/src/YakisobaBackend.cpp:157-233 | A whole message, with any commit outcome, keeps the invariant. |
| `BackendObject.MessagesInv` | cas_plugin/src/YakisobaBackend.cpp:235-253 | So does a batch of messages that stops at the first one not accepted. |
| `BackendObject.OkKeepsWorking` | cas_plugin/src/YakisobaBackend.cpp:235-253 | After an accepted message the backend can take the next one. |
| `BackendObject.FindClash` | cas_plugin/src/YakisobaBackend.cpp:195-204 | The scan of a bucket reports a clash exactly for a newer id or a different key, and whether the id is there. |
| `BackendObject.CollectKeys` | cas_plugin/src/YakisobaBackend.cpp:181-208 | The descriptor loop yields the specified list of keys or the specified refusal. |
| `BackendObject.JudgeMessage` | cas_plugin/src/YakisobaBackend.cpp:157-208 | All checks on a message, in order, give the specified verdict. |
| `BackendObject.MergeKeys` | cas_plugin/src/YakisobaBackend.cpp:216-221 | The loop writes each new key into its bucket. |
| `BackendObject.RestoreTable` | cas_plugin/src/YakisobaBackend.cpp:94-112 | The restoring loop of one group. |
| `BackendObject.RestoreTables` | cas_plugin/src/YakisobaBackend.cpp:94-113 | The restoring loop over the groups. |
| `BackendObject.Recover` | cas_plugin/src/YakisobaBackend.cpp:85-115 | Loading, the checks against the credentials and registration, in one outcome. |
| `BackendObject.YakisobaBackend.constructor` | cas_plugin/src/YakisobaBackend.cpp:64-69 | A new process is in the state after a restart, with whatever file the one before it left; with none it is the initial state. |
| `BackendObject.YakisobaBackend.Close` | cas_plugin/src/YakisobaBackend.cpp:79-83 | failClosed marks the backend revoked and clears every slot. |
| `BackendObject.YakisobaBackend.RestorePersistentState` | cas_plugin/src/YakisobaBackend.cpp:85-115 | The saved state and tables, the blank state without a file, or failing closed. |
| `BackendObject.YakisobaBackend.Initialize` | cas_plugin/src/YakisobaBackend.cpp:117-142 | Does nothing twice, reports a missing credential, fails closed on an unreadable one, otherwise restores. |
| `BackendObject.EcmInv` | cas_plugin/src/YakisobaBackend.cpp:144-155 | A whole ECM, decoded or not, keeps the invariant and leaves the mutex free. |
| `BackendObject.EcmOkIff` | cas_plugin/src/YakisobaBackend.cpp:144-155 | An ECM is answered Ok exactly when it decodes, its slot is live, and the slot then shows the decoded keys. |
| `BackendObject.YakisobaBackend.DecodeAndPublish` | cas_plugin/src/YakisobaBackend.cpp:150-155 | The object does the decode step and the publish step of the machine in a row, and answers with the failure of the decode or the fate of the keys. |
| `BackendObject.YakisobaBackend.ProcessEcm` | cas_plugin/src/YakisobaBackend.cpp:144-155 | A missing slot or a payload of the wrong size is refused with nothing changed; otherwise initialize, then decode and publish, with the specified result in every case. |
| `BackendObject.YakisobaBackend.RegisterOne` | cas_plugin/src/YakisobaBackend.cpp:227-229 | One registration; a refusal fails closed. |
| `BackendObject.YakisobaBackend.RegisterKeys` | cas_plugin/src/YakisobaBackend.cpp:227-229 | The registration loop is the sequence of registration steps. |
| `BackendObject.YakisobaBackend.InstallUpdate` | cas_plugin/src/YakisobaBackend.cpp:227-232 | Registers, installs the new state and invalidates the group. |
| `BackendObject.YakisobaBackend.CommitUpdate` | cas_plugin/src/YakisobaBackend.cpp:210-232 | Commits before it applies, with the three commit outcomes. |
| `BackendObject.YakisobaBackend.ApplyMessage` | cas_plugin/src/YakisobaBackend.cpp:157-233 | The object does what the steps of the machine do, with the specified result code. |
| `BackendObject.YakisobaBackend.ApplyMessages` | cas_plugin/src/YakisobaBackend.cpp:248-252 | The loop applies messages in order and stops at the first that is not Ok. |
| `BackendObject.YakisobaBackend.ProcessEmm` | cas_plugin/src/YakisobaBackend.cpp:235-253 | A batch is refused as a whole, unchanged, unless every message declares its own size; otherwise initialize, then apply in order. |
| `BackendObject.YakisobaBackend.Bind` | cas_plugin/src/YakisobaBackend.cpp:255-263 | Keys are handed out only while the backend works, and exactly for tokens of live, published slots. |
| `Crc.SoundIffTrailer` | arib_si_engine_rs/src/core/sections.rs:130-150 | The checksum over a message and four more bytes is zero exactly when those bytes are the big-endian checksum of the message. |
| `Crc.BurstIsDetected` | arib_si_engine_rs/src/core/sections.rs:137-150 | Two byte strings of one length that both check out and differ only inside 32 consecutive bits are equal. |
| `Crc.CrcIsSerial` | arib_si_engine_rs/src/core/sections.rs:137-150 | Working byte by byte is the textbook bit-by-bit division. |
| `Crc.FeedTwice` | arib_si_engine_rs/src/core/sections.rs:137-150 | Two additions at the top of the register, each shifted out, are one addition of the joined bits. |
| `Crc.ShiftInjective` | arib_si_engine_rs/src/core/sections.rs:137-150 | Shifting loses nothing: only zero is shifted to zero. |
| `Crc.Crc32Mpeg` | arib_si_engine_rs/src/core/sections.rs:137-150 | The loop with two branches computes the checksum. |
| `Crc.SectionCrc` | cas_plugin/src/Section.cpp:20-29 | The loop with a conditional mask computes the same checksum. |
| `Section.CheckSection` | cas_plugin/src/Section.cpp:7-16 | All frame checks, in order, give the specified outcome. |
| `Section.AcceptedIffSealed` | cas_plugin/src/Section.cpp:7-16 | A section is taken exactly when its frame fits, it is current and its last four bytes are the checksum of the rest. |
| `Section.DamageIsRefused` | cas_plugin/src/Section.cpp:7-16 | A taken section damaged within 32 bits, at the same length, is refused as BadValue. |
| `Section.EcmPayload` | cas_plugin/src/Section.cpp:31-41 | An accepted ECM payload is the body, of 30 to 256 bytes; other tables are unsupported. |
| `Section.SplitIff` | cas_plugin/src/Section.cpp:54-66 | There is exactly one way to cut a body into messages that declare their own sizes, and the cutter finds it if there is one. |
| `Section.EmmIff` | cas_plugin/src/Section.cpp:43-69 | Exactly which sections yield which messages. |
| `Section.CutBody` | cas_plugin/src/Section.cpp:54-66 | The loop cuts the body into contiguous messages as specified, and ends. |
| `Section.EmmMessages` | cas_plugin/src/Section.cpp:43-69 | The whole operation: frame, table, extension, empty body and cutting. |
| `Calendar.MjdThenUnix` | arib_si_engine_rs/src/core/eit.rs:285-315 | Both calendar algorithms count the same days: MJD to a date to Unix days is MJD minus 40587, for every day from 0 up. |
| `Calendar.MjdIsDate` | arib_si_engine_rs/src/core/eit.rs:285-298 | Every number is converted to a date that exists. |
| `Calendar.UnixThenMjd` | arib_si_engine_rs/src/core/eit.rs:285-315 | Every date from the beginning of the count on is found again from its day number. |
| `Calendar.MjdWalksTheCalendar` | arib_si_engine_rs/src/core/eit.rs:285-298 | Counting up from 17 November 1858 the dates are those of the Gregorian calendar, one by one. |
| `Calendar.NextDayCounts` | arib_si_engine_rs/src/core/eit.rs:299-315 | The day after any date has the next Unix day number. |
| `Calendar.NoOverflow` | arib_si_engine_rs/src/core/eit.rs:285-315 | For every 16-bit date, no value that the split into a date or the count of days computes on the way leaves 32 signed bits. |
| `Calendar.StartTime` | arib_si_engine_rs/src/core/eit.rs:271-284 | The start time is ((mjd - 40587) * 86400 + h * 3600 + m * 60 + s - 32400) * 1000, or nothing for the reserved date or bad digits. |
| `Calendar.StartTimeInjective` | arib_si_engine_rs/src/core/eit.rs:271-284 | Two start fields with the same meaning are the same five bytes. |
| `Calendar.DurationInjective` | arib_si_engine_rs/src/core/eit.rs:262-270 | Two durations with the same meaning are the same three bytes. |
| `Calendar.DecodeBcd2` | arib_si_engine_rs/src/core/eit.rs:223-227 | Two digits decode exactly when both are decimal, to the number with those digits. |
| `Calendar.TimingIff` | arib_si_engine_rs/src/core/eit.rs:228-261 | The timing class follows from which fields are blank and which decode, and each value is given whenever its field decodes. |
| `EitEvents.EntriesReadBack` | arib_si_engine_rs/src/core/eit.rs:109-218 | Entries written one after the other are read back, all of them and nothing else. |
| `EitEvents.CompleteIff` | arib_si_engine_rs/src/core/eit.rs:109-218 | A loop is complete exactly when it is a list of whole entries, and then its events are theirs. |
| `EitEvents.ParseEvents` | arib_si_engine_rs/src/core/eit.rs:125-218 | The cursor loop yields the specified events and completeness, with every slice in range. |
| `SectionTracking.ForwardIsOneWay` | arib_si_engine_rs/src/core/sections.rs:13-18 | Of two different versions at most one is a step forward from the other. |
| `SectionTracking.SectionTracker.constructor` | arib_si_engine_rs/src/core/sections.rs:3-10 | A tracker with given contents. |
| `SectionTracking.SectionTracker.MarkSeen` | arib_si_engine_rs/src/core/sections.rs:38-59 | The new state, with the reset on a new version and both inconsistencies. |
| `SectionTracking.SectionTracker.Observe` | arib_si_engine_rs/src/core/sections.rs:20-36 | The new state and whether the section is to be used. |
| `EitInstances.RunSummary` | arib_si_engine_rs/src/core/eit_instances.rs:41-108 | After any run the instance is what the sections of the current version say: inconsistent exactly when two of them conflict, otherwise holding all of them. |
| `EitInstances.OrderDoesNotMatter` | arib_si_engine_rs/src/core/eit_instances.rs:41-108 | The inconsistency verdict, and without conflict the whole instance, are the same for every order and repetition of the same sections. |
| `EitInstances.CompleteIff` | arib_si_engine_rs/src/core/eit_instances.rs:110-142 | Complete means: no conflict, and every number up to the last has come or lies behind the end of its segment. |
| `EitInstances.TrackerCompleteIff` | arib_si_engine_rs/src/core/sections.rs:61-70 | The tracker is complete exactly when the version has no conflict and every number up to the last has come. |
| `EitInstances.EpochOfOneVersion` | arib_si_engine_rs/src/core/eit_instances.rs:41-108 | While the version does not change, the sections that count are all that have come. |
| `EitInstances.SameSectionsSameInstance` | arib_si_engine_rs/src/core/eit_instances.rs:41-108 | Two runs of the same sections of one version, whatever their order and repetitions, agree on whether they conflict, and on everything if they do not. |
| `EitInstances.OneVersionComplete` | arib_si_engine_rs/src/core/eit_instances.rs:110-142 | A run of one version is complete exactly when its sections do not conflict and leave no number open; the numbers received are then exactly those required, the ones up to the last that no segment skips. |
| `EitInstances.TablesAreIndependent` | arib_si_engine_rs/src/core/eit_instances.rs:41-108 | Whatever bytes arrive, each table key holds what its own undamaged sections make of it. |
| `EitInstances.NothingIsMixed` | arib_si_engine_rs/src/core/eit_instances.rs:41-153 | Every stored event carries the ids of its table key, the number it is filed under and the current version, and comes from a section that arrived. |
| `EitInstances.Collect` | arib_si_engine_rs/src/core/eit_instances.rs:67-108 | The collecting code in place is the specified step. |
| `EitInstances.FileSection` | arib_si_engine_rs/src/core/eit_instances.rs:79-107 | Segment end, events and safety are filed as specified. |
| `EitInstances.Instances.constructor` | arib_si_engine_rs/src/core/eit_instances.rs:34-39 | No tables yet. |
| `EitInstances.Instances.Ingest` | arib_si_engine_rs/src/core/eit_instances.rs:41-108 | One section, with its checks and early exits, is the specified step of the store. |
| `Discovery.Resolved` | arib_si_engine_rs/src/core/service_discovery.rs:541-555 | The service of a program when there is exactly one. |
| `Discovery.StepInv` | arib_si_engine_rs/src/core/service_discovery.rs:393-449 | Every table entry, announcement and withdrawal keeps the join invariant. |
| `Discovery.ProgramInv` | arib_si_engine_rs/src/core/service_discovery.rs:632-653 | So does an entry of the association table. |
| `Discovery.AnnounceInv` | arib_si_engine_rs/src/core/service_discovery.rs:565-595 | So does the announcement of a service. |
| `Discovery.PmtInv` | arib_si_engine_rs/src/core/service_discovery.rs:781-799 | So does a program map table. |
| `Discovery.DropPatInv` | arib_si_engine_rs/src/core/service_discovery.rs:403-415 | So does a new version of the association table. |
| `Discovery.DropPmtInv` | arib_si_engine_rs/src/core/service_discovery.rs:416-448 | So does the withdrawal of a map table. |
| `Discovery.IncrementalIsBatch` | arib_si_engine_rs/src/core/service_discovery.rs:565-595 | For every sequence of events, the only service of a program shows the join of the association table with the last stored map table, or nothing; its PID is filled in exactly when it was named before the last entry of its program or has been given facts since. |
| `Discovery.NamesMayComeAtAnyTime` | arib_si_engine_rs/src/core/service_discovery.rs:565-595 | A service may be named before, between or after its tables: it ends up with the same facts. |
| `Discovery.PidDependsOnOrder` | arib_si_engine_rs/src/core/service_discovery.rs:565-595 | The PID alone does depend on the order: without a map table a service named after its program entry has none. |
| `Discovery.AmbiguousIsFrozen` | arib_si_engine_rs/src/core/service_discovery.rs:541-555 | While a program has two services, neither is given anything; what they show can only be withdrawn. |
| `Discovery.AmbiguityKeepsOldFacts` | arib_si_engine_rs/src/core/service_discovery.rs:781-799 | With two services the join fails: the second map table is not shown. |
| `Provenance.StoredIff` | arib_si_engine_rs/src/core/service_discovery.rs:416-448 | Facts are stored for a program on a PID exactly when some map table event put them there and nothing has put or removed any since; they are the facts of that event. |
| `Provenance.PatIff` | arib_si_engine_rs/src/core/service_discovery.rs:632-653 | A program is mapped exactly when some entry maps it and neither a new table nor another entry followed; the PID is that of this entry. |
| `Provenance.OutdatedIffMissed` | arib_si_engine_rs/src/core/service_discovery.rs:416-448 | Facts stay stored after their map table was withdrawn exactly when a withdrawal since they were stored came while the program was not mapped to that PID. |
| `Provenance.ShowsWithdrawnIff` | arib_si_engine_rs/src/core/service_discovery.rs:416-448 | The only service of a program shows facts of a withdrawn map table exactly when the program is back on the PID and the withdrawal had come while it was not there. |
| `Provenance.WithdrawalCanMiss` | arib_si_engine_rs/src/core/service_discovery.rs:416-448 | The case exists: a program moved to another PID and back shows its old facts, withdrawn in between. |
| `Provenance.AmbiguousShows` | arib_si_engine_rs/src/core/service_discovery.rs:541-595 | Over any run, a service with a rival shows the join of the moment before the rival was announced, or nothing if that has been taken back since; one that never was alone shows nothing. |
| `DiscoveryEngine.FoldIsRun` | arib_si_engine_rs/src/core/service_discovery.rs:331-346 | Sections one after the other are the run of all their events. |
| `DiscoveryEngine.ReadStreams` | arib_si_engine_rs/src/core/service_discovery.rs:712-758 | The stream loop yields the specified streams and stops at a length that does not fit. |
| `DiscoveryEngine.ReadPmt` | arib_si_engine_rs/src/core/service_discovery.rs:682-780 | The facts of a map table: nothing when its loops are malformed, refused when the program information does not fit. |
| `DiscoveryEngine.ServiceDiscoveryEngine.constructor` | arib_si_engine_rs/src/core/service_discovery.rs:319-328 | An engine without tables. |
| `DiscoveryEngine.ServiceDiscoveryEngine.ApplyPending` | arib_si_engine_rs/src/core/service_discovery.rs:565-595 | The attaching step in place. |
| `DiscoveryEngine.ServiceDiscoveryEngine.AddProgramEntry` | arib_si_engine_rs/src/core/service_discovery.rs:642-650 | One association entry in place. |
| `DiscoveryEngine.ServiceDiscoveryEngine.ParsePat` | arib_si_engine_rs/src/core/service_discovery.rs:632-653 | The cursor loop applies the events of the section in order. |
| `DiscoveryEngine.ServiceDiscoveryEngine.AnnounceService` | arib_si_engine_rs/src/core/service_discovery.rs:963-1012 | One announced service in place. |
| `DiscoveryEngine.ServiceDiscoveryEngine.ParseSdt` | arib_si_engine_rs/src/core/service_discovery.rs:942-1015 | The cursor loop announces the services of the section in order and stops at a length that does not fit. |
| `DiscoveryEngine.ServiceDiscoveryEngine.StorePmt` | arib_si_engine_rs/src/core/service_discovery.rs:781-799 | The two loops over candidate streams store and attach the facts. |
| `DiscoveryEngine.ServiceDiscoveryEngine.AttachAll` | arib_si_engine_rs/src/core/service_discovery.rs:792-799 | The second loop, program by program in any order, is the attachment in one piece. |
| `DiscoveryEngine.ServiceDiscoveryEngine.ParsePmt` | arib_si_engine_rs/src/core/service_discovery.rs:682-799 | A map table section in place. |
| `DiscoveryEngine.ServiceDiscoveryEngine.PushSection` | arib_si_engine_rs/src/core/service_discovery.rs:331-346 | Any bytes: damaged, future and unknown sections change nothing, the others apply their events. |
| `DiscoveryEngine.ServiceDiscoveryEngine.Dispatch` | arib_si_engine_rs/src/core/service_discovery.rs:335-346 | The table and PID select the parser. |
| `DiscoveryEngine.ServiceDiscoveryEngine.InvalidatePat` | arib_si_engine_rs/src/core/service_discovery.rs:403-415 | Everything derived from the association table is withdrawn. |
| `DiscoveryEngine.ServiceDiscoveryEngine.InvalidatePmt` | arib_si_engine_rs/src/core/service_discovery.rs:416-448 | What a map table brought is withdrawn where the association table points to it. |
| `Collector.EventHasSection` | arib_si_engine_rs/src/core/service_discovery.rs:1048-1074 | Every event belongs to exactly one section of the stream, in order. |
| `Collector.UsedSection` | arib_si_engine_rs/src/core/service_discovery.rs:1048-1074 | Entries and map tables only come from undamaged current sections of their kind, of an accepted version and new to their tracker, and say what the section says. |
| `Collector.StoredHasSection` | arib_si_engine_rs/src/core/service_discovery.rs:682-799 | Everything stored for a program on a PID is what a section of the stream on that PID with that number says: the last used one since the last withdrawal that found the program there. |
| `Collector.MappedHasSection` | arib_si_engine_rs/src/core/service_discovery.rs:632-653 | Every association is an entry of a section of the stream: the last used one since the table began. |
| `Collector.CollectedIsJoined` | arib_si_engine_rs/src/core/service_discovery.rs:1048-1074 | For every stream of sections, damaged, repeated or contradictory, the only service of a program shows nothing, or the facts of the section of its map table on the PID that the section of its association names; and shows them whenever both sections are there. |
| `Collector.UsedOncePerVersion` | arib_si_engine_rs/src/core/service_discovery.rs:1048-1074 | In any stream, a section number of a table is used a second time only if another version of that table was accepted in between. |
| `Collector.ContradictionWithdraws` | arib_si_engine_rs/src/core/service_discovery.rs:1058-1072 | A section that leaves its map table contradictory withdraws it at once: nothing is stored, pending or shown of it for any program mapped to that PID at that moment. |
| `Collector.CheckSection` | arib_si_engine_rs/src/core/service_discovery.rs:1594-1602 | The checks before tracking. |
| `Collector.ServiceDiscoveryCollector.constructor` | arib_si_engine_rs/src/core/service_discovery.rs:307-316 | No trackers, and an engine without tables. |
| `Collector.ServiceDiscoveryCollector.Withdraw` | arib_si_engine_rs/src/core/service_discovery.rs:1349-1391 | The withdrawal that belongs to the table of a section. |
| `Collector.ServiceDiscoveryCollector.Note` | arib_si_engine_rs/src/core/service_discovery.rs:1424-1443 | One section is noted in its tracker. |
| `Collector.ServiceDiscoveryCollector.PushSection` | arib_si_engine_rs/src/core/service_discovery.rs:1048-1074 | Version check, withdrawal on a new version, tracking, then the engine: trackers and events are the specified ones. |
| `SectionStreams.SealIsTracked` | arib_si_engine_rs/src/core/service_discovery.rs:1594-1602 | A head that declares its size, with its checksum behind it, is a section that the collector takes. |
| `SectionStreams.PatSays` | arib_si_engine_rs/src/core/service_discovery.rs:632-653 | Such an association table section with one entry gives just that entry. |
| `SectionStreams.PmtSays` | arib_si_engine_rs/src/core/service_discovery.rs:682-780 | Such a map table section gives its facts where its PID is mapped. |
| `SectionStreams.SdtSays` | arib_si_engine_rs/src/core/service_discovery.rs:942-1015 | Such a service table section names its service. |
| `SectionStreams.PidStreams` | arib_si_engine_rs/src/core/service_discovery.rs:565-595 | Two sections, a name and an entry, in either order: with the name first the service has the PID, otherwise none. |
| `SectionStreams.ContradictoryIsShown` | arib_si_engine_rs/src/core/service_discovery.rs:1048-1074 | Six sections after which the tracker of a map table is inconsistent and the service shows its facts all the same. |
| `SectionStreams.RivalKeepsOldFacts` | arib_si_engine_rs/src/core/service_discovery.rs:781-799 | Five sections after which a service with a rival shows other facts than the join. |
| `AudioConfig.FieldsStable` | arib_si_engine_rs/src/core/codec_signaling.rs:281-320 | The fields of a program_config_element mean the same wherever their bits stand and whatever follows them. |
| `AudioConfig.RelocationPreservesMeaning` | arib_si_engine_rs/src/core/codec_signaling.rs:425-482 | For every element, bit offset and comment, the rebuilt configuration parses to object type 2, the same frequency, channel configuration 0 and the same channel count. |
| `AudioConfig.PrefixIsConfig` | arib_si_engine_rs/src/core/codec_signaling.rs:425-432 | Without an element the two prefix bytes parse to the announced configuration. |
| `AudioConfig.FieldsIff` | arib_si_engine_rs/src/core/codec_signaling.rs:281-320 | The fields of an element are read exactly when the head is admissible, all listed elements are there, no two of a kind share a tag and there is at least one; the count is one for each element and one more for each pair, at most 93, so it never leaves its byte. |
| `AdtsProbe.VerdictIsFinal` | arib_si_engine_rs/src/core/codec_signaling.rs:357-485 | Once the probe has answered Ready or Invalid it gives the same answer for every extension of the bytes. |
| `AdtsProbe.ReadyIsAnnounced` | arib_si_engine_rs/src/core/codec_signaling.rs:357-485 | Whatever the stream, a configuration that is announced parses to exactly what is announced with it. |
| `AdtsProbe.ElementExtends` | arib_si_engine_rs/src/core/codec_signaling.rs:281-335 | An element that can be read is read the same when more bytes follow. |
| `AdtsProbe.ConfigAnnounced` | arib_si_engine_rs/src/core/codec_signaling.rs:391-424 | A supplied configuration is announced exactly when it parses to AAC-LC, alone or under SBR or PS, with the frequency and channel configuration of the frame and a known channel count; what is announced is what it parses to. |
| `AudioReader.AudioConfigBits.constructor` | arib_si_engine_rs/src/core/codec_signaling.rs:487-490 | A reader at a bit position. |
| `AudioReader.AudioConfigBits.Read` | arib_si_engine_rs/src/core/codec_signaling.rs:492-500 | The shifting loop gives the value of the next bits and advances, or fails at the end. |
| `AudioReader.ReadSpeakers` | arib_si_engine_rs/src/core/codec_signaling.rs:300-308 | The loop over channel elements, with its test for repeated tags. |
| `AudioReader.ReadLfes` | arib_si_engine_rs/src/core/codec_signaling.rs:308-313 | The loop over low-frequency elements. |
| `AudioReader.SkipAssociated` | arib_si_engine_rs/src/core/codec_signaling.rs:314-316 | The loop over associated data elements. |
| `AudioReader.ReadHead` | arib_si_engine_rs/src/core/codec_signaling.rs:282-297 | The fixed part of an element, field by field. |
| `AudioReader.ReadMixdown` | arib_si_engine_rs/src/core/codec_signaling.rs:292-297 | Coupling and mixdown elements are refused, a matrix index is passed over. |
| `AudioReader.ReadFields` | arib_si_engine_rs/src/core/codec_signaling.rs:281-320 | All fields of an element. |
| `AudioReader.ReadElement` | arib_si_engine_rs/src/core/codec_signaling.rs:281-335 | Reading in place gives what the specification gives. |
| `AudioReader.CopyBits` | arib_si_engine_rs/src/core/codec_signaling.rs:459-468 | The copy loop puts the bits behind the prefix, filled up with zeros to whole bytes. |
| `AudioReader.ProbeElement` | arib_si_engine_rs/src/core/codec_signaling.rs:433-472 | One frame without a channel count: by its element, if it starts with one. |
| `AudioReader.ProbeAdtsConfiguration` | arib_si_engine_rs/src/core/codec_signaling.rs:357-485 | The scanning loop ends, stays in range and gives the specified verdict. |
| `AribText.StrictIffNothingReplaced` | arib_si_engine_rs/src/core/arib_string.rs:271-567 | Strict reading succeeds exactly when a replacing run notes nothing, with the same text and state; otherwise it fails with the first noted fault. |
| `AribText.EntriesAreInOrder` | arib_si_engine_rs/src/core/arib_string.rs:51-69 | Entries stand in the order of their offsets, carry the bytes found there, and only the last one can be a fault that ends the run. |
| `AribText.UnitIsLocal` | arib_si_engine_rs/src/core/arib_string.rs:271-567 | A readable unit depends on its own bytes only. |
| `AribText.StrictSplits` | arib_si_engine_rs/src/core/arib_string.rs:271-567 | If a text reads well, reading it with more bytes behind it is its text followed by the reading of those bytes from its final state. |
| `AribText.CutIffBoundary` | arib_si_engine_rs/src/core/arib_string.rs:271-567 | Cutting a readable text leaves a readable front exactly when the cut is between two units. |
| `AribText.TrimSplitsIff` | arib_si_engine_rs/src/core/arib_string.rs:566-566 | Trimming two texts is trimming their whole exactly unless a NUL lies at a seam between two texts with content. |
| `AribText.SeamIsLonger` | arib_si_engine_rs/src/core/arib_string.rs:566-566 | With a NUL at the seam the trimmed whole is longer than the trimmed parts. |
| `AribText.ContinuedItem` | arib_si_engine_rs/src/core/arib_string.rs:219-226 | An item continued by the same decoder reads as the joined bytes, with the same state, exactly unless a NUL lies at the seam. |
| `AribText.NulSeamExists` | arib_si_engine_rs/src/core/arib_string.rs:135-156 | A single shift can produce a NUL, so the exception is real: the bytes that reach it from the initial state. |
| `AribText.CutCharacterExists` | arib_si_engine_rs/src/core/arib_string.rs:451-469 | A two-byte character may be cut by a fragment border: the whole is readable, its first part is not. |
| `AribText.CsiLengthIff` | arib_si_engine_rs/src/core/arib_string.rs:158-171 | A control sequence of n bytes begins here exactly when there is the introducer, then parameters, then one final byte in place n. |
| `AribText.BlockHasPieces` | arib_si_engine_rs/src/core/arib_string.rs:193-215 | The bytes of a block are plain bytes and other control sequences up to the first closing bracket. |
| `AribText.PiecesAreBlock` | arib_si_engine_rs/src/core/arib_string.rs:193-215 | Such bytes are a block of that length, whatever follows them. |
| `AribDecoder.ConsumeCsi` | arib_si_engine_rs/src/core/arib_string.rs:158-171 | The loop over a control sequence. |
| `AribDecoder.ConsumeBlock` | arib_si_engine_rs/src/core/arib_string.rs:193-215 | The loop over a bracketed block. |
| `AribDecoder.ConsumeControl` | arib_si_engine_rs/src/core/arib_string.rs:193-215 | The length of a control sequence or of a whole external character block. |
| `AribDecoder.Decoding.constructor` | arib_si_engine_rs/src/core/arib_string.rs:271-280 | An empty output at the first byte. |
| `AribDecoder.Decoding.SingleShift` | arib_si_engine_rs/src/core/arib_string.rs:286-338 | SS2 and SS3: every way it ends tests the policy itself, counts its fault and moves the index as the specified unit demands. |
| `AribDecoder.Decoding.ApplyEscape` | arib_si_engine_rs/src/core/arib_string.rs:578-690 | The escape sequence applied in place is the specified escape. |
| `AribDecoder.Decoding.DesignateSet` | arib_si_engine_rs/src/core/arib_string.rs:578-690 | A graphic set is put in the place that the intermediate byte names. |
| `AribDecoder.Decoding.EscapeArm` | arib_si_engine_rs/src/core/arib_string.rs:339-385 | Escapes, with the policy tests and counters of each of their faults. |
| `AribDecoder.Decoding.ControlArm` | arib_si_engine_rs/src/core/arib_string.rs:389-429 | Control sequences and blocks, with their own faults. |
| `AribDecoder.Decoding.LeftArm` | arib_si_engine_rs/src/core/arib_string.rs:430-484 | Bytes of the left half, with their own faults. |
| `AribDecoder.Decoding.RightArm` | arib_si_engine_rs/src/core/arib_string.rs:485-548 | Bytes of the right half, with their own faults. |
| `AribDecoder.Decoding.OtherArm` | arib_si_engine_rs/src/core/arib_string.rs:549-563 | Bytes without an arm. |
| `AribDecoder.Decoding.HandleByte` | arib_si_engine_rs/src/core/arib_string.rs:281-564 | The match on one byte, whatever the byte: output, state, index, entries and counters change as the specified unit demands under either policy. |
| `AribDecoder.Decoding.RecordEntry` | arib_si_engine_rs/src/core/arib_string.rs:51-69 | An entry with the offset and the bytes at the index. |
| `AribDecoder.NotedTallies` | arib_si_engine_rs/src/core/arib_string.rs:51-69 | Noting a fault of any kind keeps every counter equal to the number of its entries and the number of replacements equal to that of all entries. |
| `AribDecoder.SoFarStep` | arib_si_engine_rs/src/core/arib_string.rs:277-565 | One byte handled by any arm keeps the account: what is out so far followed by the rest is the whole reading, strict or replacing. |
| `AribDecoder.DecodeWithPolicy` | arib_si_engine_rs/src/core/arib_string.rs:271-567 | Both policies in one loop: strict gives the strict outcome, replacing never fails, gives the replacing run, and its counters are the counts of its entries. |
| `AribDecoder.AribStringDecoder.constructor` | arib_si_engine_rs/src/core/arib_string.rs:117-133 | A decoder in the initial state. |
| `AribDecoder.AribStringDecoder.Decode` | arib_si_engine_rs/src/core/arib_string.rs:219-226 | The trimmed strict text and the new state; an error leaves the state alone. |
| `AribDecoder.AribStringDecoder.LossyDiagnostic` | arib_si_engine_rs/src/core/arib_string.rs:228-231 | The diagnostic of a replacing run from the present state, which stays. |
| `ExtendedEvent.SequenceIff` | arib_si_engine_rs/src/core/descriptors.rs:661-671 | The sequence check passes exactly when fragment number i stands in place i, up to the common last number. |
| `ExtendedEvent.SequenceIsUnique` | arib_si_engine_rs/src/core/descriptors.rs:661-671 | However complete fragments arrive, they sort into one list only. |
| `ExtendedEvent.OkIffReads` | arib_si_engine_rs/src/core/descriptors.rs:729-778 | The parts of an item can all be read exactly when every beginning of its joined bytes that ends with a part can be. |
| `ExtendedEvent.OkIffBorders` | arib_si_engine_rs/src/core/descriptors.rs:729-778 | The parts can all be read exactly when the joined bytes can and every border between parts is a border between units of text. |
| `ExtendedEvent.PartsReadAsJoined` | arib_si_engine_rs/src/core/descriptors.rs:729-778 | An item read part by part ends in the state of its joined bytes; it has their text exactly when no NUL lies at a seam between parts, and a shorter one otherwise. |
| `ExtendedEvent.Assemble` | arib_si_engine_rs/src/core/descriptors.rs:685-789 | The loops over fragments and parts show exactly the logical items, each in full or not at all. |
| `ExtendedEvent.Assembler.constructor` | arib_si_engine_rs/src/core/descriptors.rs:686-690 | No item in hand. |
| `ExtendedEvent.Assembler.Flush` | arib_si_engine_rs/src/core/descriptors.rs:691-709 | The item in hand is shown if all of it was read and something is left of it. |
| `ExtendedEvent.Assembler.Begin` | arib_si_engine_rs/src/core/descriptors.rs:737-763 | A new item starts with a fresh decoder and its own description. |
| `ExtendedEvent.Assembler.ReadPart` | arib_si_engine_rs/src/core/descriptors.rs:764-776 | One more part is read with the decoder of the item. |
| `ExtendedEvent.Assembler.Take` | arib_si_engine_rs/src/core/descriptors.rs:729-778 | One part, of the item in hand or of a new one. |
| `Utf8.ShortenedSize` | arib_si_engine_rs/src/core/provider_data.rs:1017-1043 | A cut removes something whenever something may go, at least what was asked for as far as allowed and less than four bytes more, never half a character, and keeps the first character if told to. |
| `Utf8.ShortenTail` | arib_si_engine_rs/src/core/provider_data.rs:1017-1043 | The loop steps back to a character boundary and reports the bytes removed. |
| `Truncation.SettlesToTwo` | arib_si_engine_rs/src/core/provider_data.rs:1125-1141 | From the second round on the recorded length has one of two values. |
| `Truncation.Settle` | arib_si_engine_rs/src/core/provider_data.rs:1125-1141 | The sixteen rounds always suffice: the recorded length is the length of the text that records it. |
| `Truncation.CutTextSize` | arib_si_engine_rs/src/core/provider_data.rs:1045-1123 | Every cut removes something and reports at least one byte and at most what it removes; a message never becomes empty. |
| `Truncation.HexReportIff` | arib_si_engine_rs/src/core/provider_data.rs:1081-1093 | The report for linkage data is exact for every request exactly when every odd part of the text ends with a one-byte character. |
| `Truncation.PrefixIsNarrow` | arib_si_engine_rs/src/core/provider_data.rs:1081-1093 | What makes the report exact for a text makes it exact for all that cutting leaves of it. |
| `Truncation.WideHexIsMiscounted` | arib_si_engine_rs/src/core/provider_data.rs:1081-1093 | Linkage data is not checked to be hexadecimal: a text with a two-byte character is miscounted. |
| `Truncation.FindText` | arib_si_engine_rs/src/core/provider_data.rs:1045-1123 | The last item with something to cut, and its first such field. |
| `Truncation.ShortenText` | arib_si_engine_rs/src/core/provider_data.rs:1081-1093 | A cut of one text, with the extra character of an odd hexadecimal text. |
| `Truncation.ShortenLongText` | arib_si_engine_rs/src/core/provider_data.rs:1045-1123 | Exactly one text is cut, the first in the order of priority; nothing is cut only when nothing can be. |
| `Finalize.ValidStays` | arib_si_engine_rs/src/core/provider_data.rs:1205-1273 | Dropping and cutting keep the data valid. |
| `Finalize.CutInOrder` | arib_si_engine_rs/src/core/provider_data.rs:1045-1123 | A cut respects the order of priority: a group is touched only when nothing can be cut in the groups before it, items from the last one on, fields from the first one on. |
| `Finalize.CutInv` | arib_si_engine_rs/src/core/provider_data.rs:1592-1597 | A cut keeps the account of what was removed, the whole order of priority and everything protected; the account of text is exact over the whole loop whenever every odd part of each linkage text ends with a one-byte character. |
| `Finalize.DroppedIsGone` | arib_si_engine_rs/src/core/provider_data.rs:1005-1015 | The recorded total is at most what the data has lost in elements and bytes of text, and exactly that with such linkage texts. |
| `Finalize.AsciiIsCountedExactly` | arib_si_engine_rs/src/core/provider_data.rs:1005-1015 | With ASCII linkage data the recorded total is exactly what the data has lost. |
| `Finalize.DropElement` | arib_si_engine_rs/src/core/provider_data.rs:1565-1591 | The last element of the first non-empty list is dropped and counted. |
| `Finalize.DropOne` | arib_si_engine_rs/src/core/provider_data.rs:1565-1597 | One thing goes and the measure shrinks, or nothing is left to go. |
| `Finalize.FinalizeProgram` | arib_si_engine_rs/src/core/provider_data.rs:1515-1608 | The loop ends. Fitted data has at most 32768 bytes, records its true length and the total dropped, is valid, equals the original but for counted omissions in order of priority among lists, text groups, items and fields; otherwise nothing more may go. |

## Left out

- The cipher, credential loading and the ARIB glyph tables: foreign code and finite lookups; they are parameters.
- Sockets, descriptor passing, memfd, mmap, JNI, Binder and FMQ: plumbing around the modelled operations.
- JSON syntax: a text is represented by its data and its length, and the length is a parameter apart from the self-recorded number.
- Names, bouquets, network metadata and conditional access descriptors in service discovery, and the completeness predicates over them: they do not take part in the join. Announcements from network and bouquet tables are the event `Announce`, but only service tables are parsed.
- The descriptor parsers: whether a descriptor loop has a structural error is a parameter of `EitInstances` and `DiscoveryEngine`.
- Admission, expiry and generations of the parser state in `lib.rs`, the channel variant of truncation and the removal of forbidden extension keys: bookkeeping with no law across operations.
- Liveness after a new version of the association table: map tables of an unchanged version are then taken for repeats, so their facts stay withdrawn; only what is shown is stated.
- The sort of extended event fragments: the library sort is represented by its result, any sorted list with the same elements.
- Finalize.FinalizeProgram: the two optional lists of descriptor facts are plain lists, since an absent one drops like an empty one; counters do not saturate.
- EitInstances.Instances.Ingest: the state record lists sets, not sorted lists of numbers.
- KeyRegistry.Keys.Bind: the answer is given for memory that no writer changes during the call; concurrent stores are the subject of `SeqLock`.
- DiscoveryEngine.ReadPmt: conditional access descriptors, which the original keeps beside the streams, are not part of the facts.
- Collector.ServiceDiscoveryCollector.Withdraw: the withdrawal of network, bouquet and service metadata is not modelled, since that metadata is not.
