# Verified model of the Home companion's durable state

This project models, in Dafny, the parts of the Home companion that must not lose or corrupt what the user
entrusted to it, and proves what they promise:

- **Offline recovery.** Restoring a Whole-Home backup, repairing an interrupted restore and leaving Recovery Hold are
  modelled as methods over one disk (journal, owned files, actionable paths, transaction directory, checkpoints). Every
  method is a sequence of atomic steps of one protocol, any of which may be the last before a crash.
- **Clarification dialogue.** Frames are discovered, turned into one question, patched by the user's turns and stored.
  The engine that patches and the store that checks every patch are modelled separately, and proved to agree.
- **The store of pending questions.** A list that expires lazily and compacts itself is proved to answer as an eager map
  from conversation to live question would.
- **Confirmed changes of memory.** Proposals, their store and the handler of "confirm" and "cancel", with writes that may
  fail before or after they take effect and status saves that may fail.
- **The backup format.** Staging, archive writing, verification and materializing, and the encrypted envelope.
- **Smaller algorithms.** Edit distance and command-word correction, ranked search and bounded recall, the commitment
  list and its pages, and the list last presented to the user.

Run `dafny verify dfyconfig.toml` to check everything.

## How the parts fit

| module | what it is |
|---|---|
| `Common`, `Sorting` | options, bytes, stable sorting by a total order, the order of strings |
| `Inventory` | the 21 static components, complete Homes, what a backup of a Home holds |
| `RecoveryProtocol`, `RecoverySafety` | the step relation of recovery, its invariant, and the theorems about every run |
| `RecoveryService` | the methods of recovery, each proved to take only protocol steps |
| `RecoveryWitness` | runs that do end where no repair gets any further |
| `BackupArchive`, `BackupVerifier`, `BackupStaging`, `BackupWriter`, `Envelope` | the parts of the backup format; what is accepted is `Inventory.Verified`, which recovery demands |
| `BackupService`, `BackupWitness` | whole backups, from a Home to a sealed bundle and back; encodings that meet the assumptions |
| `Frames`, `PendingRecords`, `Clarification` | frames and records with their validators, the store's patch check, the engine and the builder |
| `TurnFrames` | what a turn makes of a frame, in the frame's own fields |
| `DialogueClosure`, `Dialogue` | the agreement of engine and store, progress, whole dialogues |
| `Validators` | exactly what each validator and the store's patch check refuse, error by error |
| `DialogueStore`, `DialogueWitness` | turns through the store, in runs of any conversations; inputs at which a turn or a save fails |
| `PendingDocument`, `PendingMirror`, `PendingStore` | compaction, the refinement of an eager map, the store itself |
| `Proposals`, `ProposalStore`, `ConfirmedMutation`, `ConfirmationHandler` | proposals, their store, the apply-once protocol, its handler |
| `ConfirmationWitness` | runs in which a change is applied twice, stays pending, or is reported as pending although confirmed |
| `EditDistance`, `CommandPrefix`, `HumanSearch`, `Commitments`, `PresentedSets` | the smaller algorithms |

Crashes: a crash loses the process and keeps the disk, so the states a crash can leave are the states between atomic
steps. `RecoveryService` records every such state in a ghost trace, and `RecoverySafety` reasons about all runs of any
number of sessions, with the Home itself running and changing its files whenever its gate is open.

Faults: `RecoveryService` takes an arbitrary function that says which operations fail; `ConfirmedMutation` takes one record
of faults per attempt. A contract that speaks of no fault says so.

## Where the code does less than it promises

The model follows the code. Where a promise turned out not to hold, the exact condition is proved:

- A repair can be stuck for good. A second repair of a replace restore cannot move the skills aside when the first one
  already did under the same name, and neither kind of repair gets past a validation probe that a crash left behind.
  `RecoveryService.RecoveryService.RecoverInterrupted` succeeds without faults exactly when neither is the case, the operator
  supplies what is needed, and the backup can be made again. `RecoveryWitness` shows that from wherever a restore may begin a
  run reaches each of the two causes. The documentation promises repair in every case (docs/W5_2_WHOLE_HOME_RECOVERY.md:30-34).
- Rolling back does not bring back skill folders that the registry does not name (`Inventory.BackupKeepsHomeIff`).
- The engine's answer to a referent carries no selected operation, so its own reply validator refuses it whenever the answer
  settles the frame; and the semantic answer to a referent has an origin that the store refuses. A frame that lacks only
  a referent is therefore never resolved (`Dialogue.SoleReferentIsNeverResolved`; `DialogueWitness.SoleReferentIsLive` is such
  a frame); `Dialogue.Answerable` is the exact guard.
- One explanation overwrites every unresolved referent, which the store refuses when there are several
  (`DialogueClosure.OverwritingIsRefused`, `DialogueWitness.TwoReferentsAreRefused`).
- A save of a pending question into a document of 1000 records fails although compaction would make room
  (`PendingMirror.SaveStoredIff`). This needs `max_records` to be 1000; `DialogueWitness.FullDocumentRefusesASave` is such a save.
- Editing, hiding and restoring are applied again when the status save was lost and somebody else undid the effect in
  between (`ConfirmationWitness.InterferenceAppliesAgain`). `ConfirmedMutation.AppliedAtMostOnceIff` says of every run exactly
  when a proposal is applied at most once.
- Creating and superseding are never applied twice. Instead, when the status save was lost and somebody else changed the new
  record, the proposal stays pending as long as the record differs from what was proposed: a fault-free attempt completes exactly
  when it does not (`ConfirmedMutation.AddedCompletesIff`, `ConfirmedMutation.AddedStaysUnconfirmed`;
  `ConfirmationWitness.EditedAdditionStaysPending` is such a run).
- When a change is found already applied and the callback after its status save raises, the reply says that the proposal
  stays pending although it is confirmed (`ConfirmedMutation.RepliesAreTrue`; `ConfirmationWitness.ConfirmedButSaidPending` is
  such an attempt).
- A Home whose files each fit can still be too large for one bundle: `BackupService.CreateBackup` has the bound in its condition,
  and `BackupWitness.TooLargeTogether` is such a Home.
- An empty file is encrypted but refused on reading (`Envelope.SealedOpensIff`).
- A commitment due exactly when both clock readings agree with it counts as unscheduled (`Commitments.BucketsByDueTime`).

## Model

| member | source | states |
|---|---|---|
| `Inventory.InventoryListsEachOnce` | backend/backup/inventory.py:37-59 | the table lists each of the 21 components exactly once, so a pass over it meets every owned file |
| `Inventory.HeldIsVerified` | backend/backup/service.py:59-82 | what a backup of any complete Home holds, the bundle verifier accepts |
| `Inventory.HeldByImage` | backend/backup/recovery.py:327-340 | a Home made from a verified bundle holds that bundle's contents again and can be backed up exactly when they are within the bounds, which is what the post-apply check relies on |
| `Inventory.BackupKeepsHomeIff` | backend/backup/inventory.py:143-180 | a Home's own backup gives it back exactly when its skills directory exists and holds only registered packages |
| `RecoveryProtocol.StepKeepsInv` | backend/backup/recovery.py:82-133 | every atomic step of recovery keeps the invariant that ties journal phase, owned files, quarantine and checkpoint together |
| `RecoveryProtocol.JournalStepKeepsInv` | backend/backup/recovery_journal.py:33-45 | each admitted phase change keeps it: terminal phases are entered only with the inventory whole |
| `RecoveryProtocol.QuarantineStepKeepsInv` | backend/backup/recovery.py:397-426 | moving an actionable path in or out of quarantine loses and duplicates nothing |
| `RecoverySafety.RunKeepsInv` | backend/backup/recovery.py:82-215 | the invariant holds at every moment of every run of restores, repairs and releases cut short anywhere |
| `RecoverySafety.CrashAtomicity` | backend/backup/recovery_journal.py:47-67 | a mix of old and new files exists only while neither the Home, nor background work, nor a new restore may start |
| `RecoverySafety.EnteringTerminalPhases` | backend/backup/recovery.py:298-340 | on entering Hold the Home is the backup and its actionable state is quarantined; on entering ROLLED_BACK it is the checkpoint and nothing stays quarantined |
| `RecoverySafety.QuarantineConservation` | backend/backup/recovery.py:38-44 | each actionable path of the start is kept with its content until release, in exactly one place while a transaction runs |
| `RecoverySafety.JournalStateMachine` | backend/backup/recovery.py:99-148 | whichever recovery wrote the retained journal: PREVIEWED is never persisted, a fresh recovery never rolls back, a replace recovery's checkpoint exists until release, and each phase admits exactly one of restore, repair and release |
| `RecoverySafety.Gates` | backend/backup/recovery_journal.py:47-67 | phase by phase over every run, which of starting a restore, running the Home, background work, release and repair is open: in Hold the Home may run without background work |
| `RecoverySafety.FreshStartsEmpty` | backend/backup/recovery.py:264-271 | whatever fresh recovery has begun in a run started on a Home with no package and no file but the identity |
| `RecoverySafety.SessionExtendsRun` | backend/backup/recovery.py:82-133 | what one session does, from fixing its goal on, is a stretch of such a run |
| `RecoveryWitness.CrashAfterSwapDooms` | backend/backup/recovery.py:315-325 | from any beginning of a replace restore of a Home with skills, a run reaches the state after a repair swapped them, which no repair gets past |
| `RecoveryWitness.CrashBesideProbeDoomsReplace` | backend/backup/recovery.py:327-340 | from any beginning of a replace restore, a run reaches a crash beside the validation probe of its repair, which no repair gets past |
| `RecoveryWitness.CrashBesideProbeDoomsFresh` | backend/backup/recovery.py:327-340 | from any beginning of a fresh restore, a run reaches a crash beside its validation probe, which no retry gets past |
| `RecoveryWitness.BeginningsExist` | backend/backup/recovery.py:82-133 | restores of either mode do begin, at a given Home and backup, so all three are reached |
| `RecoveryService.RecoveryService.AcquireGuards` | backend/backup/recovery.py:226-246 | both writer leases are held afterwards, or neither and nothing changed |
| `RecoveryService.RecoveryService.ReplaceFiles` | backend/backup/recovery.py:298-313 | every static component becomes the bundle's, present or absent, one file at a time |
| `RecoveryService.RecoveryService.ReplaceSkills` | backend/backup/recovery.py:315-325 | the skills directory becomes the bundle's unless the name to move the old one to is taken |
| `RecoveryService.RecoveryService.ValidateApplied` | backend/backup/recovery.py:327-340 | without faults it accepts exactly a Home that has the bundle's files and can be backed up, and refuses when an earlier probe is left |
| `RecoveryService.RecoveryService.QuarantineActionableState` | backend/backup/recovery.py:397-412 | afterwards every actionable path present is in quarantine with its content, or the operation failed part way without losing any |
| `RecoveryService.RecoveryService.RestoreQuarantine` | backend/backup/recovery.py:414-426 | what was quarantined is back in its home with its content |
| `RecoveryService.RecoveryService.Restore` | backend/backup/recovery.py:82-133 | success means Hold with the confirmed backup's files and packages in place and the actionable files in quarantine; a reported rollback means that what a backup of the former Home holds is back; a fresh restore of a Home with any package or any file but the identity changes nothing; any other failure leaves the Home as it was or an interruption that gates it; without faults the outcome is exactly that of the first check that fails, or success |
| `RecoveryService.RecoveryService.RecoverInterrupted` | backend/backup/recovery.py:150-215 | success reaches ROLLED_BACK with the files and actionable state of the start, or Hold with the backup's; failure keeps the interruption; a fresh repair asked for without a backup file or with another id changes nothing; without faults it succeeds exactly when it is permitted and the retained transaction is not doomed; a doomed one stays doomed |
| `RecoveryService.RecoveryService.ApplyCheckpoint` | backend/backup/recovery.py:384-395 | a rollback ends with the checkpoint in place and the quarantine returned, or stays interrupted; without faults it succeeds exactly when the checkpoint opens and neither probe nor swapped skills are in the way |
| `RecoveryService.RecoveryService.RecoverReplace` | backend/backup/recovery.py:172-194 | repair of a replace restore ends with the checkpoint in place, or stays interrupted |
| `RecoveryService.RecoveryService.RecoverFresh` | backend/backup/recovery.py:196-215 | repair of a fresh restore ends with the backup in place, or stays interrupted |
| `RecoveryService.RecoveryService.ResetPartialFreshTargets` | backend/backup/recovery.py:273-284 | a partly filled fresh target is emptied down to the identity file |
| `RecoveryService.RecoveryService.ReleaseRecoveryHold` | backend/backup/recovery.py:135-148 | releasing never touches the Home's files; without faults it is refused exactly outside Hold or for a structurally invalid Home, and otherwise drops transaction and checkpoint |
| `BackupArchive.LayoutRoundTrip` | backend/backup/service.py:124-153 | laying contents out as files and reading the directory back gives the same contents |
| `BackupVerifier.ReadMembersBounded` | backend/backup/service.py:248-278 | reads exactly the archives of 1 to 513 distinct, safely named, bounded members |
| `BackupVerifier.ValidateManifestInventory` | backend/backup/service.py:227-245 | accepts exactly the component lists with distinct ids and paths, every required component, and each bound to its v1 place |
| `BackupVerifier.InventoryIsRefusedIff` | backend/backup/service.py:227-245 | a component list is refused exactly for a repeated id or path, a missing required component, or a component in a false place or with a false flag |
| `BackupVerifier.VerifyArchivedSkills` | backend/backup/service.py:381-427 | accepts exactly when the archived packages are the registered ones, file ids and package digests included |
| `BackupVerifier.SkillsAreRefusedIff` | backend/backup/service.py:381-427 | archived packages are refused exactly for an unreadable registry, a file of an unregistered package or under a false id, a registered package without files, or one that is not as registered |
| `BackupVerifier.VerifyTar` | backend/backup/service.py:191-224 | returns the manifest of exactly the acceptable archives |
| `BackupVerifier.AcceptedIff` | backend/backup/service.py:191-224 | an archive is accepted exactly when it is readable, a manifest in it can be read, each listed component has its member of the listed size and digest and nothing else is there, and inventory, identity, history and packages hold together |
| `BackupVerifier.AcceptedManifest` | backend/backup/service.py:191-224 | an accepted manifest lists 3 to 512 components, each bounded and under a portable path |
| `BackupVerifier.AcceptedIsComplete` | backend/backup/service.py:191-224 | an accepted archive holds one member per component and the manifest, all required ones, each in its place with matching size and digest |
| `BackupVerifier.AcceptedIsVerified` | backend/backup/service.py:124-153 | what an accepted archive materializes to is a complete Home, as recovery demands |
| `BackupStaging.StageStatics` | backend/backup/inventory.py:81-100 | stages each static component that exists, in the table's order, and fails exactly when a required one is missing or one does not fit |
| `BackupStaging.StageInstalledSkills` | backend/backup/inventory.py:143-180 | stages the registered packages in the registry's order, and fails exactly when one is missing, altered or does not fit |
| `BackupStaging.Stage` | backend/backup/inventory.py:81-180 | stages exactly the component files and the files of registered, intact packages |
| `BackupStaging.RowsAreStaged` | backend/backup/inventory.py:81-180 | the rows are the files that a backup of the Home holds, each once with its size and digest |
| `BackupWriter.WrittenIsAcceptedIff` | backend/backup/service.py:167-224 | the archive written from staged components is accepted exactly when they agree with one another and respect the verifier's bounds, and holds exactly them |
| `BackupService.CreateBackup` | backend/backup/service.py:59-82 | succeeds exactly on a complete Home whose files, archive and sealed bundle stay within the bounds, under a passphrase |
| `BackupService.BackupPossibleIff` | backend/backup/service.py:59-122 | a backup can be made exactly under a passphrase, of a complete Home whose files, names, number of files, manifest and bundle stay within the stated bounds |
| `BackupService.StructuredIff` | backend/backup/inventory.py:143-180 | a Home is complete exactly with the required files, a coherent inventory, a readable registry, and each registered package as registered |
| `BackupService.BackupRoundTrip` | backend/backup/service.py:59-153 | under its passphrase such a bundle yields exactly the files that the Home holds, which make a complete Home again, and nothing else |
| `BackupService.CheckpointsAreBackups` | backend/backup/recovery.py:286-296 | recovery's checkpoints are these backups: possible for the same Homes, with the same contents |
| `BackupWitness.BackupsExist` | backend/backup/service.py:59-82 | encodings and primitives that meet the assumptions exist, and so does a Home that they can back up |
| `BackupWitness.BoundsCanBeKnown` | backend/backup/recovery.py:286-296 | whatever the encodings, recovery can be given exactly the bounds of the format |
| `BackupWitness.TooLargeTogether` | backend/backup/crypto.py:50-57 | five files of the largest allowed size make a complete, stageable Home within the archive's bounds whose sealed bundle is over its bound |
| `BackupService.MaterializeVerifiedBackup` | backend/backup/service.py:124-153 | yields the files of exactly the bundles that open to an accepted archive, and they make a complete Home |
| `Envelope.BigEndianRoundTrip` | backend/backup/crypto.py:60-62 | the 4-byte header length is read back as written |
| `Envelope.SplitIsUnique` | backend/backup/crypto.py:138-154 | a bundle has one split into magic, header, ciphertext and tag |
| `Envelope.SealedOpensIff` | backend/backup/crypto.py:31-106 | a sealed plaintext opens to itself and to nothing else under its passphrase; an empty or oversized one never opens |
| `Envelope.EncryptFile` | backend/backup/crypto.py:31-69 | the chunked writer produces, place by place, magic, big-endian header length, header, each source byte mixed with its place in the key stream, and the tag over them; it refuses exactly an empty passphrase or an oversized result |
| `Envelope.ReadHeader` | backend/backup/crypto.py:138-154 | finds the header of exactly the bundles that begin with one that is supported |
| `Envelope.DecryptFile` | backend/backup/crypto.py:72-106 | the chunked reader yields the plaintext of exactly the bundles that open under the passphrase, each byte unmixed at its place and the tag checked |
| `Frames.DiscoverIsCoherent` | backend/conversation/interpretation_v2.py:862-921 | discovery of candidates made from the frame's own slots yields a valid frame whose candidates know exactly the frame's slots and miss exactly what they require beyond them |
| `Frames.MailIsResolved` | backend/conversation/interpretation_v2.py:727-750 | a request to read mail, whose candidate is made without the frame's slots, is valid and resolved at once, so no question follows from it |
| `Validators.FrameIsRefusedIff` | backend/conversation/interpretation_v2.py:123-158 | a frame is refused exactly for a bound, an invalid or repeated part, or a structure that its state does not allow |
| `Validators.CandidateIsRefusedIff` | backend/conversation/interpretation_v2.py:103-120 | a candidate is refused exactly for its bounds or a repeated name |
| `Validators.QuestionIsRefusedIff` | backend/conversation/pending_resolution.py:63-86 | a question is refused exactly when it carries what its kind does not ask for, or lacks what it does |
| `Validators.RecordIsRefusedIff` | backend/conversation/pending_resolution.py:144-203 | a record is refused exactly for an invalid frame or question, times out of order, repeated choices, or a status that does not go with its reason, frame and question |
| `PendingRecords.AcceptedPatchMakesProgress` | backend/conversation/pending_resolution.py:448-512 | no patch the store accepts adds a question or forgets a slot, and every answer leaves strictly less to ask |
| `Validators.SlotsAreRefusedIff` | backend/conversation/pending_resolution.py:455-482 | a patch is refused exactly when it drops a slot, changes one without follow-up provenance, or adds one without user or temporal provenance |
| `Validators.CandidatesAreRefusedIff` | backend/conversation/pending_resolution.py:483-496 | a patched candidate is refused exactly when no former one has its operation and evidence, or when it forgets a slot, claims an absent one, misses more, or drops a missing one that is still absent |
| `Validators.ReferentsAreRefusedIff` | backend/conversation/pending_resolution.py:497-512 | patched referents are refused exactly when an expression comes or goes, a known referent changes, or an open one is answered other than explicitly |
| `Validators.PatchIsRefusedIff` | backend/conversation/pending_resolution.py:448-512 | a patch is refused exactly for a reworded utterance, or for its slots, candidates or referents |
| `PendingRecords.ClarificationTerminates` | backend/conversation/pending_resolution.py:408-512 | in any run of accepted patches the answers are bounded by what the first frame left open |
| `DialogueClosure.NamesAfter` | backend/conversation/clarification.py:692-707 | slot updates keep the known names in place and append each new name once |
| `DialogueClosure.TurnSlotsAre` | backend/conversation/clarification.py:692-707 | after a turn every slot has its updated value, the calendar's reading of its date, or the value it had |
| `TurnFrames.KeptSlots` | backend/conversation/clarification.py:692-707 | a slot that a turn does not give stays as it was, and a date that the calendar reads becomes the calendar's form of it |
| `TurnFrames.GivenSlots` | backend/conversation/clarification.py:637-690 | what a turn gives is in the frame, and no name is there that neither the frame nor the turn had |
| `TurnFrames.ChosenCandidate` | backend/conversation/clarification.py:728-750 | a choice leaves exactly the chosen candidate, unchanged |
| `TurnFrames.TaughtCandidates` | backend/conversation/clarification.py:804-838 | a supplied slot keeps the candidates in their order, and each knows it and misses it no longer |
| `TurnFrames.UpdatedCandidates` | backend/conversation/clarification.py:637-690 | a semantic update keeps the selected candidate or all, each knowing exactly the frame's slots and missing exactly what it requires beyond them |
| `TurnFrames.ExplainedReferents` | backend/conversation/clarification.py:524-546 | an explanation answers every open referent under the expression that was asked about, and changes nothing else |
| `TurnFrames.StateFollows` | backend/conversation/clarification.py:841-880 | the patched frame is open about a choice, then a referent, then a missing slot, and otherwise resolved to its one operation |
| `TurnFrames.ReplySays` | backend/conversation/clarification.py:600-690 | the engine's reply names a withdrawal and an unrelated turn as such, settles exactly when the frame is resolved, and names the chosen or the only operation left |
| `DialogueClosure.PatchIsCoherent` | backend/conversation/clarification.py:841-880 | reframing with told candidates and admissible slots validates and passes the store's provenance check |
| `DialogueClosure.ChoiceCloses` | backend/conversation/clarification.py:728-750 | choosing a candidate is accepted by every validator and by the store |
| `DialogueClosure.SupplyCloses` | backend/conversation/clarification.py:804-838 | so is a supplied slot, cross-slot times included, while candidates have room for its name |
| `DialogueClosure.CrowdedSupplyIsRefused` | backend/conversation/interpretation_v2.py:104-124 | without room the candidate validator refuses it |
| `DialogueClosure.MergeCloses` | backend/conversation/clarification.py:637-690 | a semantic update of choices and slots is accepted while there is room |
| `DialogueClosure.SemanticReferentIsRefused` | backend/conversation/pending_resolution.py:498-512 | a semantic answer to a referent is always refused by the store |
| `DialogueClosure.ExplanationCloses` | backend/conversation/clarification.py:522-546 | explicit material is accepted when the asked referent is the only one open, and settles the frame exactly when nothing else is |
| `DialogueClosure.OverwritingIsRefused` | backend/conversation/pending_resolution.py:498-500 | with another referent open, the overwritten expression makes the store refuse |
| `Dialogue.NextQuestionFits` | backend/conversation/clarification.py:189-258 | about any open frame there is a next question, about a referent if one is open, else about all candidates when there are several, else about the first missing slot, and the record validator accepts it |
| `Dialogue.FirstReferentIsAsked` | backend/conversation/clarification.py:189-258 | the referent asked about is the first one without a value |
| `Dialogue.ScopeIsAsked` | backend/conversation/clarification.py:189-258 | a frame whose provider scope is ambiguous is asked about as such, with all its candidates |
| `Dialogue.DiscoveryOpensADialogue` | backend/conversation/clarification.py:165-187 | a discovered ambiguous frame becomes a valid stored question |
| `Dialogue.TurnCloses` | backend/conversation/resolution_coordinator.py:468-546 | a turn is refused by no validator, builder or provenance check exactly when it is answerable, and leaves the question open and coherent, resolved to an adopted operation, or cancelled |
| `Dialogue.TurnStores` | backend/conversation/resolution_coordinator.py:468-546 | what an answerable turn stores: cancelled, unchanged, the same question with the amount, the resolved meaning, or the builder's next question |
| `Dialogue.SettlingTurnMakesProgress` | backend/conversation/clarification.py:728-838 | choosing, filling a missing slot or explaining leaves strictly less to ask |
| `Dialogue.DialogueIsBounded` | backend/conversation/resolution_coordinator.py:468-546 | every dialogue keeps its identity and known slots, and its answers are bounded by what was open at the start |
| `Dialogue.SoleReferentIsNeverResolved` | backend/conversation/clarification.py:524-546 | a frame that lacks only a referent is never resolved by any dialogue, refused turns and retries included |
| `DialogueStore.TurnAnswers` | backend/conversation/resolution_coordinator.py:468-546 | a turn that writes is answered by the store with exactly the record the turn makes when it is answerable and the question has not expired meanwhile, and is refused otherwise |
| `DialogueStore.TurnKeepsLive` | backend/conversation/resolution_coordinator.py:468-546 | a turn leaves a valid store in which every open question is coherent, well asked and open for answers |
| `DialogueStore.StoreStaysLive` | backend/conversation/resolution_coordinator.py:468-546 | so does every run of turns, new questions, reads and endings over all conversations |
| `DialogueWitness.SoleReferentIsLive` | backend/conversation/clarification.py:524-546 | such a frame is a valid open question |
| `DialogueWitness.TwoReferentsAreRefused` | backend/conversation/pending_resolution.py:498-500 | so is one with two open referents, whose explanation is refused |
| `PendingDocument.CompactionKeepsTheNewest` | backend/conversation/pending_resolution.py:561-582 | compaction keeps every pending record and exactly the newest terminals there is room for, within the limits, and gives up only on too many pending ones |
| `PendingDocument.CompactionIsIdempotent` | backend/conversation/pending_resolution.py:561-586 | compacting again, as every write does, changes nothing |
| `PendingMirror.StepAgrees` | backend/conversation/pending_resolution.py:265-446 | each operation gives the answer, and leaves the live questions, of an eager map |
| `PendingMirror.RunAgrees` | backend/conversation/pending_resolution.py:265-328 | so does every run of operations under a clock that does not run backwards |
| `PendingMirror.ReadsCanBeLeftOut` | backend/conversation/pending_resolution.py:307-328 | leaving out any reads, lookups and sweeps of a run changes no answer of the saves, moves and active lookups that are left |
| `PendingMirror.SaveStoredIff` | backend/conversation/pending_resolution.py:206-222 | a save is stored exactly when the eager map would store it and the document has fewer than 1000 records |
| `DialogueWitness.FullDocumentRefusesASave` | backend/conversation/pending_resolution.py:206-222 | a document of 1000 terminal records refuses a save that compaction would make room for |
| `PendingMirror.TerminalsNeverChange` | backend/conversation/pending_resolution.py:408-446 | no operation changes a terminal record; it can only be dropped |
| `PendingMirror.EachRecordsFate` | backend/conversation/pending_resolution.py:265-446 | no operation invents a record or alters one otherwise than by expiring, superseding or moving it, and only the record it concerns |
| `PendingMirror.ReadsLeaveNothingDue` | backend/conversation/pending_resolution.py:514-539 | a read persists what it expired |
| `PendingMirror.SweepCountsTheEnded` | backend/conversation/pending_resolution.py:396-406 | the sweep reports exactly how many records it expired |
| `PendingMirror.GetFinds` | backend/conversation/pending_resolution.py:307-314 | a lookup finds nothing exactly for an unknown id, a due question as expired, and any other record as it is |
| `PendingMirror.ExpiryKeepsDocument` | backend/conversation/pending_resolution.py:523-539 | expiring keeps the document valid and leaves only current questions open |
| `PendingStore.PendingResolutionStore.Save` | backend/conversation/pending_resolution.py:265-305 | stores, supersedes or refuses as the eager map does, and never changes a terminal record |
| `PendingStore.PendingResolutionStore.ActiveForConversation` | backend/conversation/pending_resolution.py:316-328 | returns the conversation's live question |
| `PendingStore.PendingResolutionStore.Get` | backend/conversation/pending_resolution.py:307-314 | finds nothing exactly for an unknown id, and a question as pending exactly before its expiry |
| `PendingStore.PendingResolutionStore.ExpireDue` | backend/conversation/pending_resolution.py:396-406 | ends what is due and counts it |
| `PendingStore.PendingResolutionStore.Move` | backend/conversation/pending_resolution.py:408-446 | moves exactly a live question whose patch and result are valid |
| `PendingStore.PendingResolutionStore.Resolve` | backend/conversation/pending_resolution.py:330-341 | refuses an unresolved meaning before it reads the document |
| `PendingStore.PendingResolutionStore.UpdatePending` | backend/conversation/pending_resolution.py:343-368 | refuses a settled meaning before it reads the document |
| `ProposalStore.MemoryProposalStore.Add` | backend/conversation/memory_intent.py:271-279 | adds exactly a new id to a conversation where nothing waits, so at most one proposal waits; what is in memory is what a reload reads, even when the save fails |
| `ProposalStore.MemoryProposalStore.SetStatus` | backend/conversation/memory_intent.py:314-320 | changes one status in memory and file together, or neither |
| `ProposalStore.MemoryProposalStore.CurrentForConversation` | backend/conversation/memory_intent.py:291-312 | picks the newest waiting proposal and collapses its competitors, or changes nothing when that cannot be saved |
| `ProposalStore.CollapsingOnlyCancels` | backend/conversation/memory_intent.py:291-312 | collapsing leaves one waiting proposal, only cancels, never confirms, and does nothing without competitors |
| `Proposals.SortedPending` | backend/conversation/memory_intent.py:297-304 | the last in order is the newest waiting proposal, and those before it are exactly its competitors |
| `ConfirmedMutation.ApplyingSatisfies` | backend/memory/memory_management.py:107-166 | an applied change is audited once and is seen as applied by the postcondition |
| `ConfirmedMutation.ApplyingTouchesOnlyItsRecords` | backend/memory/memory_management.py:107-166 | a change alters no other record and drops none |
| `ConfirmedMutation.ApplicableIff` | backend/memory/memory_management.py:107-166 | a change can be made exactly when what it changes is there, what it adds is not, and an edit keeps the id and a replacement names what it replaces |
| `ConfirmedMutation.ChangesOnlyWhatItSays` | backend/memory/memory_management.py:119-148 | a superseded record keeps its text, visibility and predecessor; hiding and restoring change visibility alone; the time of the update is set |
| `ConfirmedMutation.RestoringUndoesHiding` | backend/memory/memory_management.py:119-128 | hiding and then restoring, or the reverse, gives the document back up to the time of the update |
| `ConfirmedMutation.OnlyEditsRewrite` | backend/memory/memory_management.py:107-166 | over any run a record stays with its text and predecessor, unless an edit of it is applied or another writer changes it |
| `ConfirmedMutation.SeenAsApplied` | backend/memory/memory_management.py:217-248 | a proposal is seen as applied exactly when its own audit entry is there and its records are as proposed, edits and replacements up to the time of the update |
| `ConfirmedMutation.OneKeepsWaiting` | backend/conversation/memory_intent.py:271-320 | once at most one proposal waits in each conversation, proposing, confirming, cancelling and collapsing keep it so |
| `ConfirmedMutation.AppliedIff` | backend/conversation/memory_intent.py:2431-2470 | an attempt writes exactly when the proposal waits, is not seen as applied, can be applied, and the write takes effect |
| `ConfirmedMutation.FaultlessConfirmCompletes` | backend/conversation/memory_intent.py:2431-2470 | without faults a waiting proposal completes exactly when it is already applied or can be |
| `ConfirmedMutation.RepliesAreTrue` | backend/conversation/memory_intent.py:2431-2548 | a success is confirmed and in effect; "already applied" is said only when it is; "stays pending" is true exactly unless the callback raised after the change was found applied and its status saved; "could not apply" is true exactly when the change was not in effect before and no write of it took effect |
| `ConfirmedMutation.RunsStaySound` | backend/conversation/memory_intent.py:2431-2548 | in every run, with any faults and other writers: what is confirmed was applied, success is announced at most once, and creating or superseding is applied at most once |
| `ConfirmedMutation.AppliedByEffectiveMoves` | backend/conversation/memory_intent.py:2431-2548 | over any run, with any faults, new proposals and other writers, a proposal is applied exactly as often as an attempt finds it waiting and not in effect, and writes |
| `ConfirmedMutation.AppliedAtMostOnceIff` | backend/conversation/memory_intent.py:2431-2548 | it is applied at most once exactly when no two attempts do so |
| `ConfirmedMutation.AppliedAtMostOnce` | backend/conversation/memory_intent.py:2431-2548 | in particular, any proposal is applied at most once, and is in effect when confirmed, as long as nobody else touches its records meanwhile |
| `ConfirmedMutation.RetriesConverge` | backend/conversation/memory_intent.py:2492-2520 | after any failed attempts one without faults leaves the change applied once, confirmed and announced once |
| `ConfirmationWitness.InterferenceAppliesAgain` | backend/memory/memory_management.py:217-244 | with another change in between, hiding is applied twice |
| `ConfirmationWitness.ConfirmedButSaidPending` | backend/conversation/memory_intent.py:2441-2447 | an attempt whose callback raises after the change was found applied says that it stays pending, and it is confirmed |
| `ConfirmedMutation.AddedCompletesIff` | backend/conversation/memory_intent.py:2431-2470 | a creation or supersession that was applied once completes without faults exactly when the record still is as proposed; while it is not, no attempt changes anything |
| `ConfirmedMutation.AddedStaysUnconfirmed` | backend/conversation/memory_intent.py:2431-2470 | over any run in which its attempts all find the record changed, it is never confirmed |
| `ConfirmationWitness.EditedAdditionStaysPending` | backend/conversation/memory_intent.py:2431-2470 | a run from the beginning in which a created record is edited before its lost status save is repaired, and the next attempt leaves it pending |
| `ConfirmedMutation.CancelledStaysAsItIs` | backend/conversation/memory_intent.py:2604-2616 | a cancelled proposal is never applied afterwards |
| `ConfirmedMutation.CancelledIsUnappliedIff` | backend/conversation/memory_intent.py:2604-2616 | over any run, a proposal once cancelled is unapplied for good exactly when no attempt before that applied it |
| `ConfirmedMutation.CancellingAppliesNothing` | backend/conversation/memory_intent.py:2604-2616 | cancelling changes one waiting status, or nothing when the save fails, and applies nothing |
| `ConfirmationHandler.MemoryIntentHandler.Confirm` | backend/conversation/memory_intent.py:2431-2470 | confirms the named proposal of this conversation, or the current one, as one attempt of the protocol; raises when competitors of the current one cannot be cancelled, and then nothing changes |
| `ConfirmationHandler.MemoryIntentHandler.Recover` | backend/conversation/memory_intent.py:2492-2520 | completes after a failed attempt exactly what turns out to be applied |
| `ConfirmationHandler.MemoryIntentHandler.Cancel` | backend/conversation/memory_intent.py:2604-2616 | cancels exactly a waiting proposal, and raises when competitors or the status cannot be saved |
| `ConfirmationHandler.MemoryIntentHandler.Resolve` | backend/conversation/memory_intent.py:2629-2639 | never yields a proposal of another conversation |
| `EditDistance.EditDistanceAtMostOne` | backend/connectors/provider_language.py:88-109 | true exactly when the recursive edit distance is at most one |
| `EditDistance.ScanTogether` | backend/connectors/provider_language.py:95-109 | the two-pointer scan decides it for strings one character apart in length; its branch for equal lengths is never taken |
| `EditDistance.SameLengthDistance` | backend/connectors/provider_language.py:93-94 | strings of one length are within one edit exactly when they differ in at most one place |
| `CommandPrefix.CorrectWord` | backend/connectors/provider_language.py:81-85 | returns the obvious correction, the only close command word, or the word itself |
| `CommandPrefix.CorrectedIsTheOnlyClose` | backend/connectors/provider_language.py:81-85 | a word that is no listed typo becomes the only command word within one edit, and stays when there is none |
| `CommandPrefix.CommandWordsAreFixed` | backend/connectors/provider_language.py:17-25 | no command word is ever corrected into another |
| `CommandPrefix.NormalizeCommandPrefix` | backend/connectors/provider_language.py:50-72 | the loop corrects the command and then the listing words, each in view of the corrected word before it |
| `CommandPrefix.CommandByPosition` | backend/connectors/provider_language.py:50-72 | word by word: the command is corrected, the word behind a listing command, and each word whose corrected predecessor is a listing modifier; everything else stays |
| `CommandPrefix.OnlyThePrefixChanges` | backend/connectors/provider_language.py:50-72 | word count and every word beyond the limit stay, a changed word is its correction, and without a command nothing changes |
| `CommandPrefix.NormalizingIsIdempotent` | backend/connectors/provider_language.py:50-72 | normalizing twice is normalizing once |
| `HumanSearch.RelevanceIsBounded` | backend/application/human_information.py:716-751 | relevance lies between zero and one |
| `HumanSearch.RelevanceInWholeNumbers` | backend/application/human_information.py:716-751 | the score and the cut in whole numbers: shares of query and record, phrase, and age up to 7 and 30 days |
| `HumanSearch.WhatMatches` | backend/application/human_information.py:726-738 | a query word matches when some record word equals it, or the shorter of the two, of three letters or more, begins the longer |
| `HumanSearch.WhatOccurs` | backend/application/human_information.py:745-745 | the phrase counts when it is found at some place of the record's text |
| `HumanSearch.RecordCoverageMayExceedOne` | backend/application/human_information.py:744-744 | although the record's own coverage can exceed one |
| `HumanSearch.ShortQueriesKeepEveryMatch` | backend/application/human_information.py:716-751 | with one to three topic tokens the cut drops exactly the items that match none of them |
| `HumanSearch.LongQueriesMayCutAMatch` | backend/application/human_information.py:325-328 | with four or more, a single match in a long and older record is cut |
| `HumanSearch.SearchInformation` | backend/application/human_information.py:311-343 | every match is of the asked scope, project, mode and time and passes the cut; every such item is returned when there is room, and otherwise nothing left out ranks above anything returned |
| `HumanSearch.RankingOrders` | backend/application/human_information.py:329-336 | relevance, then newest, then kind, then id is a total order |
| `HumanSearch.RankingPrefers` | backend/application/human_information.py:329-336 | what stands first is more relevant, or as relevant and newer, any time before none, then history before memory before tasks before threads, then the id |
| `HumanSearch.GatherCandidates` | backend/application/human_information.py:364-423 | the primary selection comes first and whole; what search adds keeps the matches' order, never repeats an id, is forgotten only in a forgotten review, and misses only what is left out on purpose |
| `HumanSearch.RecallKeepsTheRoom` | backend/application/human_information.py:425-438 | recall is a subsequence within the limit, the budget and each record's cap |
| `HumanSearch.RecallIsGreedy` | backend/application/human_information.py:425-438 | a candidate passed over before the limit was too long, or would have overflowed the budget then and in the end |
| `HumanSearch.TakeWhatFits` | backend/application/human_information.py:425-438 | context and trace stay aligned and the used size is their sum |
| `HumanSearch.RecallInformation` | backend/application/human_information.py:345-444 | search is asked for three times what is wanted; what it contributes is eligible, finished when only finished tasks are asked for, and no thread when one was retrieved, and no other match is missing |
| `Commitments.BucketsByDueTime` | backend/application/commitments.py:146-167 | each listed commitment has exactly the bucket and the status that its due time names |
| `Commitments.ListsWhatIsOpen` | backend/application/commitments.py:50-90 | each visible, open commitment is listed as often as it is there, and nothing else is |
| `Commitments.OrderWithinBuckets` | backend/application/commitments.py:170-198 | fresh overdue ones stand before upcoming ones, these before unscheduled ones and these before stale ones; upcoming ones soonest first, overdue ones latest first, unscheduled ones newest first |
| `Commitments.CountsAddUp` | backend/application/commitments.py:94-112 | the four counts add up to the total |
| `Commitments.List` | backend/application/commitments.py:26-133 | a page is its slice of the ordered list, with the counts of the whole list and the next offset exactly when rows are left |
| `Commitments.PagesCoverTheList` | backend/application/commitments.py:101-133 | following the next offset from anywhere ends and gives the rest of the list once and in order |
| `Commitments.PagesFromTheStart` | backend/application/commitments.py:101-133 | so following it from 0 gives every row once and in order |
| `PresentedSets.PresentedReadSetRegistry.Resolve` | backend/connectors/presented_read_sets.py:157-198 | a reference names an item only within the current list of that owner and kind, and only when it is the one item |
| `PresentedSets.HomePresentation.Remember` | backend/conversation/memory_intent.py:1352-1355 | both copies of the list change together |
| `PresentedSets.HomePresentation.Discard` | backend/conversation/memory_intent.py:1343-1350 | both copies are dropped, and another owner's list is kept |
| `PresentedSets.HomePresentation.Current` | backend/conversation/memory_intent.py:1357-1365 | whenever a list is returned, it is exactly what the registry holds |

## Left out

- Recovery: symbolic links, path safety checks, lease files, fsync order, moves across devices and journal parse errors; a
  journal write is one atomic step.
- Recovery: a fresh recovery id names nothing on disk, and a backup id names one content; both come from random UUIDs.
- Recovery: removing the old skills of a fresh retry goes package by package.
- Recovery: whether contents stay within the bounds of a backup is one question with one answer in a session. In the code the
  id, time and salt of each backup can change the size of its bundle by a few bytes.
- Recovery: the passphrase is a flag that says whether the checkpoint opens.
- Backup: JSON, SQLite and tar layout, hashing, path syntax and directory order are parameters; `BackupArchive.Faithful` lists
  what is assumed of them. Two files whose paths collide as a file and a directory, registries that name a skill twice, and
  checks of the destination path are not modelled.
- Envelope: real cryptography; `Envelope.Sound` lists the laws that are used, and nothing is claimed about wrong passphrases
  beyond the tag that must match.
- Dialogue: the language of a turn is a parameter; `DialogueClosure.Understood` is the contract of the grammars, of the
  semantic validator and of the date and duration resolvers. Prompt wording and diagnostics are not modelled.
- Frames.DiscoverIsCoherent: covers candidates made from the frame's own slots. A request to read mail makes its candidate without them while the frame keeps its times; such a frame is resolved and never asked about (`MailIsResolved`).
- Dialogue: routing between an open question and a new request, and the hand-over of a resolved operation.
- Dialogue: value length bounds and identifier patterns of slots, referents and expressions.
- Pending store: the file itself and its migration from an older schema; the clock does not run backwards.
- PendingMirror.RunAgrees: it speaks of documents limited below 1000 records, because at that limit a full document refuses every save; `SaveStoredIff` covers it.
- Confirmed memory: proposals about shared continuity, which follow the same protocol in another service, and the wording of replies; the two callbacks after a success are one announcement, which may fail.
- ConfirmedMutation.AppliedAtMostOnce: it assumes that nobody else touches the proposal's records between attempts; without that it is false, as `ConfirmationWitness.InterferenceAppliesAgain` shows.
- Confirmed memory: other writers never remove records and never audit under a proposal's id.
- Search: Russian stemming and text normalization; scores are reals and are not rounded to six digits.
- Command correction: punctuation and case folding before the words are split, and provider names.
- Commitments: all pages are taken of one listing; the clock is read twice per listing rather than once per row.
- Presented lists: connectors never present under the Home's own name; hints for the language model are not modelled.
- Conversation text, user interface, connectors, the proactive daemon and everything else in the repository.
