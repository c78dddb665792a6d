# Verification of the AIGCCore kernel

A Dafny model of the parts of AIGCCore's Rust core that have to hold for every input and every run,
with proofs of what they are for. Check it with `dafny verify dfyconfig.toml`.

| files | what they model |
|---|---|
| `VaultDisk`, `VaultFileSystem`, `VaultStorage` | the generational vault: a directory as a value, a file system whose every call may fail or be the last before a crash, and the instance that creates, opens, writes and rotates |
| `VaultWorld`, `VaultUpgradeGap` | several instances, their locks and crashes, as a state machine over whole runs |
| `VaultRuns` | the methods of `VaultStorage` as runs of that machine, each finished or stopped after any file-system call, and the write-once map over sequences of them |
| `Json`, `JsonCanonical`, `JsonReader` | JSON values, the compact printer, the canonical form (strings per section 7 of RFC 8259), and a reader with a level counter |
| `AuditEvent`, `AuditChain`, `AuditTail`, `AuditLog`, `AuditWriters` | the hash-chained audit log: verification, the backward tail scan, appends that fail anywhere, and any number of writers |
| `RunManager` | the export pipeline with all its exits |
| `EvalGates` | the evaluation report: its producer and the validator's checker |
| `ArchiveLimits` | the validator's bounds on archive work |
| `Narrative` | the narrative printer and the claim marker scanner |
| `Base64`, `Bits` | the Base64 codec (section 4 of RFC 4648) and the bit operations it is made of |
| `Options`, `Strings`, `SortedMap` | results, text as sequences of characters, and sorted maps |

## Assumptions

Foreign code enters as parameters with stated hypotheses, never as unproved declarations.

- SHA-256 is a function; where a proof needs it, it is collision-free and never zero on a given
  finite set of texts (`AuditChain.CollisionFree`).
- Authenticated encryption is a pair of functions of which opening inverts sealing
  (`VaultDisk.Lawful`). Nonces and new keys come from the environment; a new key has 32 bytes.
- The JSON reader is a function that reads no document from a blank text, ignores a final carriage
  return, gives an object distinct keys, and reads a printed integer-only value back with sorted
  objects, unless 128 or more arrays and objects are nested in each other (`AuditEvent.Host.ReadsJson`).
  The limit is the default one of serde_json, of which Cargo.lock names version 1.0.154 without
  `unbounded_depth` and, as `indexmap` is absent, without `preserve_order`.
  `AuditEvent.ReaderObeysLaws` shows that a reader of the JSON grammar with a level counter obeys all
  of these laws. Details are what a `serde_json::Value` holds: objects in key order, whole numbers
  within i64 or u64 (`JsonCanonical.Held`).
- A file-system call happens entirely or not at all, except that a failing write may leave anything
  in the file it was writing. Rename and hard link are atomic. A crash is the death of the process
  between two calls; `FileSystem.trace` lists, in order, all that a crash could expose.
- A run manager is the only writer of its run's audit log while it exports. The log itself admits
  others: `AuditLog` and `AuditWriters` model them.
- Every failure of an append, read, removal, archive generation or validation in the export
  pipeline is decided by an oracle, and the statements hold for every oracle.
- A rotation is given a suffix of digits other than `0`; the suffix is what the clock and a counter
  make in `unique_suffix` (core/src/storage/vault.rs:521-529).

## Where the code does not do what it promises

Each property is false of the code on the inputs named, and proved to hold exactly elsewhere.

- A log that accepts an event is meant to be a log that opens again. `append` prints without a limit
  of depth (core/src/audit/log.rs:88) and both readers refuse 128 nested arrays and objects
  (core/src/audit/log.rs:141-142 and 180). An event whose details are nested 127 deep is returned as
  appended, and from then on every append fails on the tail and every open fails:
  `AuditLog.DeepEventFreezes`, `AuditWriters.FrozenForever`. Below that depth, which a caller can
  measure on the details before the call, the log stays one verified chain:
  `AuditLog.AppendVerifiesIff`, `AuditWriters.ConcurrentAppends`. Of a run that contains such an event
  it still holds that everything before it is one verified chain with every acknowledged event in it
  exactly once, and that nothing is ever removed or appended behind it: `AuditWriters.EveryRun`.
- The comment on `VaultStorage` (core/src/storage/vault.rs:26-32) says that rotation only proceeds when
  the instance is the only open one and can never lose a blob another instance writes.
  `lock_exclusive_for_rotation` unlocks before it tries the exclusive lock, and another rotation can
  slip in between. `VaultUpgradeGap.RotationSlipsIn` is such a run in which an accepted write is lost.
  The loss needs the retired generation still to be there, so its removal
  (core/src/storage/vault.rs:479-483) must have failed or the process must have died before it; once
  it is gone an instance left on it can neither write nor rotate (`VaultWorld.RemovalProtects`).
  `VaultWorld.WriteKeptIff` and `VaultWorld.SwapKeptIff` say exactly when a write or a rotation keeps
  the vault, in terms of whether the instance lives in the active generation, which the code could
  test behind `try_lock`; `VaultWorld.GuardedRunRefines` is what that test would buy.
  `VaultWorld.RunSettled`, `VaultWorld.RunRefines` and `VaultWorld.WriteOnce` hold for runs in which
  the upgrade is one step.
- A creation that dies, or fails, behind the key state and before the configuration leaves a directory
  in which `create` refuses to work (`VAULT_ALREADY_EXISTS`) and in which `open` finds no vault.
  `VaultStorage.CreateVault` says exactly when a failed creation can be repeated, when the vault is
  there although creation has failed, and when the directory is stuck.
- A comment says that a `serde_json::Map` preserves insertion order
  (core/src/determinism/json_canonical.rs:28); as the library is built here it sorts its keys. The
  canonical form does not depend on it.

## Model

| member | source | states |
|---|---|---|
| `VaultStorage.VaultStorage.RotateLocked` | `core/src/storage/vault.rs:385-488` | whatever call fails, a rotation either changes nothing that opening can see, or makes exactly one visible change, from the old generation to a complete new one, in which every file is sealed under the new key and which has the old caches and no interrupted write; every state a crash can expose opens to the same vault, under the old key id before the swap and the new one from it on; key encryption key and key storage stay; the instance agrees with the disk whatever is returned; if no call fails and the names are free it succeeds and leaves nothing of the retired generation or the stage |
| `VaultStorage.VaultStorage.Attempt` | `core/src/storage/vault.rs:385-488` | the rotation up to the removal of its stage, legacy and generational layout alike |
| `VaultStorage.VaultStorage.Stage` | `core/src/storage/vault.rs:402-460` | a stage that is returned as ready opens with the new wrapped key and holds every blob and the database under it, and nothing visible has changed |
| `VaultStorage.VaultStorage.RecodeAll` | `core/src/storage/vault.rs:404-437` | the staged database and all staged blobs, in any directory order, decrypt under the new key to the plaintexts of the vault |
| `VaultStorage.VaultStorage.RecodeBlobs` | `core/src/storage/vault.rs:418-437` | the loop over the staged blobs |
| `VaultStorage.VaultStorage.Recode` | `core/src/storage/vault.rs:405-436` | one item is decrypted from the live generation and sealed into the stage |
| `VaultStorage.VaultStorage.WriteKeyState` | `core/src/storage/vault.rs:439-460` | the staged key state has the new key id and the vault's own key storage, and wraps the new key under the vault's key encryption key |
| `VaultStorage.VaultStorage.Swap` | `core/src/storage/vault.rs:461-474` | rename and pointer swap: on failure nothing visible has changed, on success the disk opens at the staged files |
| `VaultStorage.VaultStorage.Commit` | `core/src/storage/vault.rs:461-478` | memory is taken over exactly when the pointer was swapped |
| `VaultStorage.VaultStorage.Replace` | `core/src/storage/vault.rs:461-487` | the swap and, behind it, the removal of the retired generation, complete unless a call failed |
| `VaultStorage.VaultStorage.RotateInto` | `core/src/storage/vault.rs:385-488` | the rotation with its stage removed, whatever the result; key encryption key and key storage stay, the place changes exactly with the swap |
| `VaultStorage.VaultStorage.Retire` | `core/src/storage/vault.rs:479-483` | removing the retired generation, complete or not, is never visible, and complete unless a call failed |
| `VaultFileSystem.FileSystem.CopyTree` | `core/src/storage/vault.rs:735-789` | the stage receives every file of the generation except interrupted blob writes |
| `VaultFileSystem.FileSystem.Publish` | `core/src/storage/vault.rs:648-680` | only the final rename of the pointer is visible, and after it the disk opens at the named generation |
| `VaultFileSystem.FileSystem.EmptyTree` | `core/src/storage/vault.rs:552-556` | removal file by file, in any order, until a removal fails |
| `VaultFileSystem.FileSystem.RemoveTree` | `core/src/storage/vault.rs:552-556` | a removal that stops at any file of a generation that is not open stays invisible, and one that meets no failure leaves nothing |
| `VaultFileSystem.FileSystem.RemoveFlat` | `core/src/storage/vault.rs:558-575` | the same for the files of the old flat layout |
| `VaultDisk.PointsTo` | `core/src/storage/vault.rs:179-198` | a disk whose active-generation file was replaced opens at the generation named there, although `open` trims and restricts the name |
| `VaultDisk.GenerationNames` | `core/src/storage/vault.rs:396-401` | generation names are accepted by `open`, stage names never are, and no fresh suffix yields the first generation's name |
| `VaultDisk.OpensToOne` | `core/src/storage/vault.rs:154-233` | what a disk opens to determines key id and vault |
| `VaultStorage.VaultStorage.WriteBlob` | `core/src/storage/vault.rs:238-279` | success, if no call fails, exactly on a new valid id, adding exactly this blob and leaving no temporary file; otherwise the vault is unchanged; a crash finds the old vault before the hard link and the new one after it; every view exposed is the old one, from the link on with this blob sealed into it, but for interrupted writes |
| `VaultStorage.VaultStorage.StoreBlob` | `core/src/storage/vault.rs:249-278` | the write behind the check of the id: which views it exposes and when it succeeds |
| `VaultStorage.VaultStorage.PrepareBlob` | `core/src/storage/vault.rs:257-270` | a written and synced temporary file, or the vault as it was |
| `VaultStorage.VaultStorage.PublishBlob` | `core/src/storage/vault.rs:273-278` | the hard link and the removal of the temporary file: if no call fails, a new id is linked and nothing temporary is left |
| `VaultStorage.VaultStorage.Link` | `core/src/storage/vault.rs:273-274` | the link never replaces a blob |
| `VaultStorage.VaultStorage.ReadBlob` | `core/src/storage/vault.rs:281-318` | exactly the stored bytes, or nothing for an unknown or malformed id |
| `VaultStorage.VaultStorage.WriteSqliteBytes` | `core/src/storage/vault.rs:320-329` | replaces the database cell and nothing else, in one visible change, unless the in-place write is torn |
| `VaultStorage.VaultStorage.ReadSqliteBytes` | `core/src/storage/vault.rs:331-340` | exactly the database cell |
| `VaultStorage.OpenVault` | `core/src/storage/vault.rs:154-233` | finds an instance exactly if there are a configuration, a key encryption key and an active generation (the one the trimmed pointer names in letters, digits and hyphens, without a pointer `generation-0` or else the vault root) whose key state unwraps to thirty-two bytes; changes nothing |
| `VaultStorage.CreateVault` | `core/src/storage/vault.rs:86-152` | existing vault state is never touched, and is exactly a configuration, a pointer, or a key state in either layout; the exclusive lock decides between going on and VAULT_CREATE_IN_PROGRESS; every crash finds no vault or the first one, under the first key and with the data that lay in the directory; success, certain if no call fails, has this configuration, key, key storage and key id, and a key encryption key that was there before or is the new one; a failed creation can be repeated exactly if it left neither a configuration nor a key state, with a configuration the vault is there, and with a key state only the directory can neither be opened nor created in |
| `VaultStorage.WriteFirstGeneration` | `core/src/storage/vault.rs:115-136` | up to the key state nothing opens; from the key state on, until there is a configuration, the directory is stuck |
| `VaultStorage.WriteFirstKey` | `core/src/storage/vault.rs:133-135` | the key state, or anything a torn write leaves in its place; nothing else changes and nothing opens |
| `VaultStorage.NoneOrEmpty` | `core/src/storage/vault.rs:86-152` | where no data lay in the first generation, a crash in a creation finds no vault or the empty one |
| `VaultStorage.ConfigOpens` | `core/src/storage/vault.rs:137-140` | the configuration file is what brings a vault into being |
| `VaultWorld.RunRefines` | `core/src/storage/vault.rs:238-488` | over every run of the state machine, with the lock upgrade as one step, the disk opens to what the abstract map and database cell have become; that the methods make such runs is `VaultRuns` |
| `VaultWorld.WriteOnce` | `core/src/storage/vault.rs:238-318` | what any open instance reads under an id is what the single accepted write of the id wrote, or what was there at the start, or nothing |
| `VaultWorld.AcceptedOnce` | `core/src/storage/vault.rs:238-279` | no id is accepted twice in a run |
| `VaultWorld.SecondWriteRefused` | `core/src/storage/vault.rs:238-279` | a write is refused, and changes nothing, exactly if the id is malformed or already written |
| `VaultWorld.RunSettled` | `core/src/storage/vault.rs:348-383` | with the upgrade as one step every instance holds the lock and is coherent at every point of every run |
| `VaultWorld.UpgradeExactly` | `core/src/storage/vault.rs:364-383` | the one-step upgrade is what unlock and try-lock make when nothing comes between them; the lock is granted exactly to a sole holder, and a refusal leaves disk, locks and memory as they were |
| `VaultWorld.RefusedKeepsMemory` | `core/src/storage/vault.rs:364-383` | whatever other instances do between the two steps of an upgrade and behind them, the memory of the refused instance stays as it was |
| `VaultWorld.RunTracked` | `core/src/storage/vault.rs:348-383` | with the upgrade as two steps the locks still exclude each other, and an instance is coherent exactly if no rotation was published since it last took over a generation, and exactly if it lives in the active generation |
| `VaultWorld.CoherentIffNoRotation` | `core/src/storage/vault.rs:364-383` | an instance that was coherent when it unlocked is coherent later exactly if no rotation was published in between |
| `VaultWorld.WriteKeptIff` | `core/src/storage/vault.rs:238-279` | an accepted blob is in the vault exactly if its writer lives in the active generation |
| `VaultWorld.SwapKeptIff` | `core/src/storage/vault.rs:461-478` | a rotation keeps the vault exactly if the rotating instance's generation still holds it; a rotation that loses something is made from a generation that is no longer active and whose directory is still there |
| `VaultWorld.GuardedRunRefines` | `core/src/storage/vault.rs:364-383` | with the upgrade as two steps nothing is lost over any run in which writers and rotators live in the active generation, a test the code could make behind `try_lock` |
| `VaultUpgradeGap.RotationSlipsIn` | `core/src/storage/vault.rs:364-383` | a concrete run: a second rotation slips between unlock and try-lock and fails to remove the generation it retires; the exclusive holder lives in that generation, and its own rotation then loses an accepted write |
| `VaultRuns.WriteBlob` | `core/src/storage/vault.rs:238-279` | `write_blob`, finished or stopped at any view it exposes, is a short run of the state machine that has published the blob or has not; it succeeds, if no call fails, exactly on a new valid id |
| `VaultRuns.WriteSqliteBytes` | `core/src/storage/vault.rs:320-329` | an untorn `write_sqlite_bytes` is such a run |
| `VaultRuns.RotateAlone` | `core/src/storage/vault.rs:385-488` | what `rotate_locked` publishes, if it does, is what an exclusive holder may publish: complete, elsewhere, with the vault of the generation before |
| `VaultRuns.RotateDek` | `core/src/storage/vault.rs:344-362` | `rotate_dek`, refused, finished or stopped at any view it exposes, is such a run: refused it changes nothing, and stopped it has published the new generation or has not |
| `VaultRuns.OpenAs` | `core/src/storage/vault.rs:154-233` | `open` on a vault nobody holds exclusively makes one more coherent instance |
| `VaultRuns.CreateAs` | `core/src/storage/vault.rs:86-152` | what `create` returns starts a run on the empty vault, and so does what a death in it leaves, unless that opens to nothing |
| `VaultRuns.CallRefines` | `core/src/storage/vault.rs:238-488` | a call does to the vault the disk opens to what it does to the abstract map and cell, and writes only free ids |
| `VaultRuns.CallsRefine` | `core/src/storage/vault.rs:238-488` | over every sequence of calls of any number of instances, stopped calls included, the disk opens to what the abstract calls have made |
| `VaultRuns.WrittenOnce` | `core/src/storage/vault.rs:238-279` | a written id was free at the start, is written by no other call, and holds its plaintext at the end |
| `VaultRuns.ReadAfterCalls` | `core/src/storage/vault.rs:281-318` | after any sequence of calls `read_blob` of any open instance returns exactly the bytes of the single successful `write_blob` of the id, or what was there at the start, or nothing |
| `JsonCanonical.NormalizeValue` | `core/src/determinism/json_canonical.rs:21-54` | the recursion with its two local loops fails exactly on a nested non-integer; otherwise at every depth the keys of the result ascend by their first difference and are those of the value, each with the canonical form of its value, and arrays keep their order |
| `JsonCanonical.FailsExactlyOnNonIntegers` | `core/src/determinism/json_canonical.rs:42-51` | canonicalising fails exactly when some nested number is not an integer |
| `JsonCanonical.NormalizeCorrect` | `core/src/determinism/json_canonical.rs:21-54` | the result is normal and means the same |
| `JsonCanonical.NormalUnique` | `core/src/determinism/json_canonical.rs:23-41` | two normal values with one meaning are equal |
| `JsonCanonical.CanonicalIsNormalForm` | `core/src/determinism/json_canonical.rs:14-54` | integer-only values have the same canonical bytes exactly when they are equal up to key order at every depth |
| `JsonCanonical.CanonicalIdempotent` | `core/src/determinism/json_canonical.rs:14-54` | canonicalising a canonical value changes nothing |
| `Json.PrintInjective` | `core/src/determinism/json_canonical.rs:14-19` | the compact printer is injective on integer-only values |
| `Json.PrintUnique` | `core/src/determinism/json_canonical.rs:14-19` | a printed value can be told from what follows it |
| `Json.PrintOneLine` | `core/src/audit/log.rs:88-92` | a printed record has no line break, so one record is one line |
| `JsonReader.PrintThenRead` | `core/src/audit/log.rs:141-142` | reading a printed integer-only value gives it back with sorted objects exactly if at most 127 arrays and objects are nested in each other |
| `JsonReader.ValueRead` | `core/src/audit/log.rs:141-142` | so does reading it in front of any text that can follow, with any number of levels left |
| `AuditEvent.ReaderObeysLaws` | `core/src/audit/log.rs:141-142` | the laws assumed of the JSON reader hold of a reader with a level counter |
| `AuditEvent.EnvelopeInjective` | `core/src/audit/event.rs:34-42` | the hashed envelope determines the event up to key order in its details |
| `AuditEvent.FromValueMeaning` | `core/src/audit/log.rs:194-211` | reading a locked envelope into the typed event loses nothing but key order |
| `AuditEvent.NormalEnvelope` | `core/src/audit/log.rs:194-211` | typing the sorted form of an event's envelope gives the event back |
| `AuditChain.VerifyNdjson` | `core/src/audit/log.rs:171-246` | returns the last hash of the verified events, the zero hash for none, and fails otherwise; it succeeds exactly if the non-blank lines are, one by one, documents whose eight named fields are an event linked to the hash before it that carries the hash of its canonical print with sixty-four zeros as `event_hash` |
| `AuditChain.VerifiedIsChain` | `core/src/audit/log.rs:171-246` | an accepted log is one chain from the zero hash in which every event reproduces its hash |
| `AuditChain.VerifyConcat` | `core/src/audit/log.rs:171-246` | verification of more lines goes on where it stopped |
| `AuditChain.PrefixVerifies` | `core/src/audit/log.rs:171-246` | every line prefix of an accepted log is accepted with a prefix of its events |
| `AuditChain.SameHashSameEvent` | `core/src/audit/event.rs:34-42` | without a collision equal hashes mean equal events |
| `AuditChain.LastHashCommits` | `core/src/audit/log.rs:171-246` | two logs accepted with the same hash hold the same sequence of events |
| `AuditChain.HashesDistinct` | `core/src/audit/log.rs:75-86` | all hashes of a chain, the zero hash included, are pairwise distinct |
| `AuditChain.CheckAuditChain` | `core/src/validator/mod.rs:545-645` | the validator's loop over raw JSON records: passed exactly if every non-blank line is an object with all eight keys by their names, linked to the hash stored in the line before, that stores the hash of its own canonical print with sixty-four zeros as `event_hash` |
| `AuditChain.VerifiedIffCheckedAndTyped` | `core/src/validator/mod.rs:545-645` | the log accepts exactly those logs that the validator's check accepts and whose records are typed events |
| `AuditChain.VerifiersOrdered` | `core/src/validator/mod.rs:545-645` | what `verify_ndjson` accepts the validator's check accepts too, and both accept every line prefix of what they accept |
| `AuditTail.LastNewline` | `core/src/audit/log.rs:129-132` | the last newline of a buffer |
| `AuditTail.FindTailStart` | `core/src/audit/log.rs:121-134` | for every positive buffer size the backward scan stops at the start of the last line, having read no more than that line and one buffer |
| `AuditTail.ReadVerifiedTail` | `core/src/audit/log.rs:109-163` | equals the simple split at the last two newlines, with a bound on the bytes read: the hash and the link are those of the record on the last line, the zero hash twice in an empty file, and nothing if the file does not end with a newline or the record does not stand |
| `AuditTail.TailEndsChain` | `core/src/audit/log.rs:109-163` | on an accepted log a verified tail is the last hash and the hash before it, and it exists unless the last line is blank |
| `AuditTail.TailRefinesVerify` | `core/src/audit/log.rs:109-163` | on every blank-free accepted log the tail has the hash `verify_ndjson` returns |
| `AuditLog.AuditLog.OpenOrCreate` | `core/src/audit/log.rs:28-64` | succeeds exactly on terminated verified logs and remembers their last hash |
| `AuditLog.AuditLog.Append` | `core/src/audit/log.rs:66-102` | the new file, last hash and result, for every point of failure; what is written is the print of a value whose eight fields are the event's under their own names, linked to the tail and with the hash of its own canonical print with sixty-four zeros as `event_hash` |
| `AuditLog.AppendVerifiesIff` | `core/src/audit/log.rs:85-96` | an append to an accepted log yields an accepted log with one more event exactly if fewer than 127 arrays and objects are nested in each other in the details it was given |
| `AuditLog.ReadsBackIff` | `core/src/audit/log.rs:88-142` | a finalized event is read back from its record exactly if its details are not nested 127 deep or deeper |
| `AuditLog.TooDeepFreezes` | `core/src/audit/log.rs:85-96` | an append of a deeper event succeeds, and leaves a file on which every tail check and every open fails |
| `AuditLog.DeepEventFreezes` | `core/src/audit/log.rs:85-96` | the input: details of 127 or more objects in each other, of any type that takes them |
| `AuditLog.StaleMeansRefused` | `core/src/audit/log.rs:75-84` | a stale writer is refused and changes nothing |
| `AuditLog.StaleWriterExact` | `core/src/audit/log.rs:75-84` | a writer at a position of the chain is stale exactly if two or more records follow that position |
| `AuditWriters.StepKeeps` | `core/src/audit/log.rs:28-102` | every open and every append, failing anywhere, keeps the sound part of the file one chain and only extends it, exactly if it does not write a whole record whose details are nested too deep |
| `AuditWriters.FrozenForever` | `core/src/audit/log.rs:28-102` | on a log that refuses its tail and its opening no action of any writer changes anything |
| `AuditWriters.EveryRun` | `core/src/audit/log.rs:28-102` | over every interleaving, without exception: up to some action all of this holds, and that action, if there is one, writes the record that freezes the log behind the chain |
| `AuditWriters.ConcurrentAppends` | `core/src/audit/log.rs:28-102` | over every interleaving of any number of writers, of events whose details are not nested 127 deep, the file grows by prefix extension, stays one chain, and holds each acknowledged event exactly once, linked to the preceding hash |
| `RunManager.TransitionsClimb` | `core/src/run/manager.rs:582-597` | every valid edge climbs, except CANCELLED to itself |
| `RunManager.RunManager.constructor` | `core/src/run/manager.rs:53-58` | a manager starts in READY |
| `RunManager.RunManager.Transition` | `core/src/run/manager.rs:464-487` | exactly the edges of the state diagram, the record first, and no change of state if it cannot be appended |
| `RunManager.RunManager.RemoveExportedBytes` | `core/src/run/manager.rs:552-566` | success means no file is left at the path |
| `RunManager.RunManager.Evaluate` | `core/src/run/manager.rs:60-170` | the records of an evaluation in order, its report and the decision of the policy gate |
| `RunManager.RunManager.RecordGates` | `core/src/run/manager.rs:114-139` | one record per gate, and the lists of failed and failed blocker gates |
| `RunManager.RunManager.RecordBlock` | `core/src/run/manager.rs:185-204` | a blocked export is recorded with its reason and the ids of exactly the failed blockers, in order, and fails the run |
| `RunManager.RunManager.Generate` | `core/src/run/manager.rs:223-261` | a generated archive with its hash, or no file, or a failed removal |
| `RunManager.RunManager.Produce` | `core/src/run/manager.rs:222-261` | the archive embeds the log as read at this moment; a failed generation is abandoned without a file |
| `RunManager.RunManager.Abandon` | `core/src/run/manager.rs:228-238` | EXPORT_FAILED and the transition to FAILED, in this order |
| `RunManager.RunManager.Check` | `core/src/run/manager.rs:284-336` | validation of the file at the path: go on only on PASS, otherwise remove, record and fail |
| `RunManager.RunManager.ExportInitial` | `core/src/run/manager.rs:219-336` | up to the verdict on the initial bytes |
| `RunManager.RunManager.ExportFinal` | `core/src/run/manager.rs:338-461` | from the rewrite to the completed export |
| `RunManager.RunManager.Export` | `core/src/run/manager.rs:207-461` | all exits after the transition to EXPORTING |
| `RunManager.RunManager.ExportRun` | `core/src/run/manager.rs:60-462` | blocked exactly with the first broken condition: no failed blocker; the determinism gate known, and not applicable or not failed; no NAME_ONLY pinning outside DRAFT_ONLY; in STRICT the citations gate, in STRICT and BALANCED the redactions gate likewise; in STRICT mode OFFLINE with proof OFFLINE_STRICT; goes on only if none is broken. COMPLETED only after gate, initial and final validation passed, with the hash of the very bytes at the path, which embed the report and everything recorded before the last three records, and with an exact trail of records; every cleaned-up failure leaves no file, one EXPORT_FAILED and state FAILED; without a failed call it leaves EXPORTING by completing, by a validation that did not pass, or by a generation or validation that did not run to its end; an export is interrupted exactly if an append, a read or a removal failed, and then the file is what the point of interruption leaves |
| `RunManager.RunManager.ExportAll` | `core/src/run/manager.rs:60-462` | over any sequence of exports on one manager at most one is recorded as completed and at most one returns so, none if one was recorded before, and the state changes link up from READY to the state |
| `RunManager.OneFailure` | `core/src/run/manager.rs:223-436` | a failed export records one EXPORT_FAILED, before its last state change, and no completion |
| `RunManager.CompletedOrder` | `core/src/run/manager.rs:303-461` | with this manager as the log's only writer, the embedded log is a strict prefix that ends with the first validation result, and the result for the final bytes precedes EXPORT_COMPLETED |
| `RunManager.CompletedAtMostOnce` | `core/src/run/manager.rs:440-461` | a log that counts at most one completion holds at most one |
| `RunManager.HistoryClimbs` | `core/src/run/manager.rs:464-487` | state changes are valid edges, each from the target of the one before, starting at READY, with strictly climbing rank, and the last target is the state |
| `RunManager.PassedGateIsAccepted` | `core/src/run/manager.rs:172-221` | if the policy gate lets an export pass, the embedded report and manifest status pass the final report check |
| `EvalGates.SortByCorrect` | `core/src/eval/runner.rs:303-312` | the sort is a permutation in key order |
| `EvalGates.MapValidatorToGates` | `core/src/eval/runner.rs:238-314` | for every gate of the policy one result and no others, in dictionary order of their ids: what the gate's evaluator finds in the checks (a group passes if there is one and all pass, a single check is the first with its id or FAIL, several checks must each pass), its severity or BLOCKER without an evaluator, its evidence in order |
| `EvalGates.RunAllForBundle` | `core/src/eval/runner.rs:36-57` | one result for every gate of the policy and no other, ordered by id, each id once, by the literal table of gates and checks; an applicable gate without an evaluator blocks |
| `EvalGates.ResultPasses` | `core/src/eval/runner.rs:253-311` | if the table of evaluators and the table of gates that may be not applicable agree, an evaluated result passes every check of the producer against its registry entry |
| `EvalGates.CoreTablesAgree` | `core/src/eval/registry.rs:33-43` | the two tables of the core agree on every gate id and pack, in both directions |
| `EvalGates.DisagreementRefused` | `core/src/eval/runner.rs:64-175` | the agreement is needed: where two tables disagree about an applicable gate, the producer refuses what the evaluator makes of some bundle |
| `EvalGates.ReportFromResults` | `core/src/eval/runner.rs:64-175` | the producer's loop: a report exactly for a given pack id and complete, distinct, standing results; one gate per result in dictionary order, repeated with its category, and overall FAIL for a failed blocker, WARN for other failures, PASS for none; otherwise an error that is true of the results |
| `EvalGates.Gathered` | `core/src/eval/runner.rs:83-140` | a finished loop has indexed all results, each good and none twice |
| `EvalGates.ProducerAcceptsExactly` | `core/src/eval/runner.rs:64-175` | the producer makes a report exactly if a pack id is given, every result is applicable, well-formed, not downgraded and backed by the registry's evidence, no id comes twice and no applicable gate is missing |
| `EvalGates.ProducerSucceeds` | `core/src/eval/runner.rs:64-175` | for any two tables that agree the producer takes whatever the evaluator made |
| `EvalGates.CheckEveryGate` | `core/src/validator/mod.rs:1448-1513` | the checker's loop over the gates |
| `EvalGates.ValidateEvalReport` | `core/src/validator/mod.rs:1418-1552` | no fault exactly if the version is the third, there are gates, their ids are non-blank, distinct and those of the policy's gates, each has its definition's category and evidence, a reportable status, NOT_APPLICABLE only where allowed, and a severity not below its definition's, no blocker has failed, and the overall status and the manifest say PASS without and WARN with a failure; otherwise a fault that is true of the report |
| `EvalGates.GatesPass` | `core/src/validator/mod.rs:1448-1513` | gates made from good results pass the checker's loop with exactly the expected ids |
| `EvalGates.BlockersAgree` | `core/src/eval/runner.rs:225-236` | a blocker fails in the report exactly if one fails among the results |
| `EvalGates.CheckerAgrees` | `core/src/validator/mod.rs:1418-1552` | for every accepted result set the checker accepts the report exactly if the registry is the third version, some gate was evaluated, no blocker failed, and the manifest says the same |
| `EvalGates.ProducerAndCheckerAgree` | `core/src/validator/mod.rs:1418-1552` | with the core's own two tables, from the validator's checks on: the producer succeeds, and the checker accepts its report exactly if no blocker gate failed |
| `EvalGates.SatisfiedExactly` | `core/src/eval/runner.rs:177-205` | on every produced report a gate lets the export pass exactly if the registry knows it, and its first definition does not apply or it has a result other than a failure |
| `ArchiveLimits.ValidateArchiveLimits` | `core/src/validator/mod.rs:257-294` | accepts exactly if all limits hold, each a published number, and rejects with the limit that is broken; the checked addition never overflows |
| `ArchiveLimits.LimitsIgnoreOrder` | `core/src/validator/mod.rs:257-294` | the limits do not depend on the order of the entries |
| `ArchiveLimits.VerifyActualDecompressedSizes` | `core/src/validator/mod.rs:299-328` | reads at most the declared total and one byte, and accepts only entries that inflate to at most their declared size |
| `ArchiveLimits.CheckArchive` | `core/src/validator/mod.rs:154-155` | on every archive at most the published total and one byte are decompressed, and both passes accept exactly if limits and declared sizes hold |
| `Base64.Base64Encode` | `core/src/storage/key_management.rs:471-507` | the encoding loop, with its shifts, masks and bitwise ors, computes the encoding group by group: four characters of the standard alphabet whose positions, read in base 64, are the three bytes read in base 256 |
| `Base64.Base64Decode` | `core/src/storage/key_management.rs:510-530` | the decoding loop, with its shifts, masks and bitwise ors, computes the decoding group by group, and fails exactly on a character outside the alphabet that is no padding |
| `Base64.EncodeWord` | `core/src/storage/key_management.rs:487-504` | the word made by shifts and ors, cut by shifts and masks, gives the four characters of the group |
| `Base64.DecodeWord` | `core/src/storage/key_management.rs:519-526` | the word made of four sextets by shifts and ors, cut by shifts and masks, gives the three bytes |
| `Bits.OrJoins` | `core/src/storage/key_management.rs:487` | or of two disjoint shifted fields is the shift of the joined field |
| `Bits.AndIsRemainder` | `core/src/storage/key_management.rs:488-491` | a mask of ones takes the remainder |
| `Bits.ShrIsQuotient` | `core/src/storage/key_management.rs:488-491` | a right shift takes the quotient |
| `Base64.RoundTrip` | `core/src/storage/key_management.rs:471-545` | decoding an encoding gives the bytes back |
| `Base64.EncodeShape` | `core/src/storage/key_management.rs:471-507` | four characters for every three bytes begun, all from the alphabet but the padding of the last group |
| `Narrative.RenderClaim` | `core/src/evidenceos/narrative.rs:22-36` | the lines of one claim and the range of its text |
| `Narrative.RenderNarrativeMarkdown` | `core/src/evidenceos/narrative.rs:13-39` | the joined lines and all ranges: the four header lines, then for each claim its literal marker, right behind it its text in the recorded range with the hash of the text, and a blank line, and nothing else |
| `Narrative.FindMarkers` | `core/src/validator/mod.rs:1075-1094` | the scanning loop |
| `Narrative.FindClaimMarkers` | `core/src/validator/mod.rs:1075-1094` | the trimmed texts that begin with a C, of the markers found one behind the other: from the first `<!-- CLAIM:` to the first `-->` behind it, until one of them is missing |
| `Narrative.ScanLines` | `core/src/validator/mod.rs:1075-1094` | the scan of joined lines returns the ids their markers carry |
| `Narrative.PrintThenScan` | `core/src/validator/mod.rs:1075-1094` | the scanner returns the claim ids of a printed narrative in order |
| `Narrative.RangesCorrect` | `core/src/evidenceos/narrative.rs:22-38` | split at its newlines the narrative holds each claim's text lines exactly in the recorded range, and the ranges are disjoint and increasing |
| `VaultStorage.VaultStorage.CopyRecoded` | `core/src/storage/vault.rs:402-437` | the copied generation holds the vault under the new key |
| `VaultStorage.VaultStorage.ReadItem` | `core/src/storage/vault.rs:300-317` | reading a file of the live generation decrypts it under the key in memory |
| `VaultStorage.VaultStorage.WritePartial` | `core/src/storage/vault.rs:257-270` | an interrupted blob write, torn or not, leaves every exposed view as it was but for interrupted writes |
| `VaultStorage.VaultStorage.DropPartial` | `core/src/storage/vault.rs:588-600` | so does removing its temporary file, or failing to |
| `VaultStorage.WriteConfig` | `core/src/storage/vault.rs:682-700` | up to the rename of the configuration nothing opens, from it on the first generation |
| `VaultStorage.PublishFirst` | `core/src/storage/vault.rs:141-143` | the pointer and the shared lock change nothing that opening sees |
| `VaultFileSystem.FileSystem.CreateDir` | `core/src/storage/vault.rs:735-736` | a new staging directory is invisible, and an existing one is refused |
| `VaultFileSystem.FileSystem.WriteFile` | `core/src/storage/vault.rs:456-460` | a write into a generation that is not open is invisible even if torn |
| `VaultFileSystem.FileSystem.Rename` | `core/src/storage/vault.rs:464-465` | renaming the stage is invisible and never replaces a generation |
| `RunManager.RunManager.Append` | `core/src/audit/log.rs:66-102` | an append either adds exactly its record and succeeds, or is counted as a failure |
| `RunManager.RunManager.ReadLog` | `core/src/audit/log.rs:104-106` | what this manager has appended so far, behind the earlier records |
| `RunManager.RunManager.BeginEvaluation` | `core/src/run/manager.rs:67-99` | request, state change and start of the evaluation, in this order |
| `RunManager.RunManager.RecordEvaluation` | `core/src/run/manager.rs:114-153` | the gate results and the closing counts |
| `RunManager.RunManager.Enter` | `core/src/run/manager.rs:207-218` | the state is EXPORTING exactly if the transition was recorded |
| `RunManager.RunManager.Announce` | `core/src/run/manager.rs:262-283` | the two records before the first validation |
| `RunManager.RunManager.Judge` | `core/src/run/manager.rs:303-336` | the verdict is recorded, and anything but PASS removes the file and fails the run |
| `RunManager.RunManager.Discard` | `core/src/run/manager.rs:285-302` | removal first, then the records of the failure |
| `RunManager.RunManager.Complete` | `core/src/run/manager.rs:438-455` | EXPORT_COMPLETED, then the transition to COMPLETED |
| `RunManager.RunManager.Rewritten` | `core/src/run/manager.rs:338-461` | all exits after the initial bytes have passed |
| `AuditTail.ReadExact` | `core/src/audit/log.rs:127-128` | the buffer holds the requested bytes of the file |
| `Narrative.RenderLines` | `core/src/evidenceos/narrative.rs:22-36` | the loop over the claims |
| `Strings.LessIsPrecedes` | `core/src/determinism/json_canonical.rs:10-34` | the order of map keys is dictionary order by first difference |
| `Strings.TrimIsTrimmed` | `core/src/storage/vault.rs:180` | trimming takes the whitespace off both ends and nothing else; blank is what is all whitespace |
| `Strings.LinesEquations` | `core/src/audit/log.rs:175-178` | a newline ends a line and takes one carriage return in front of it along; a last line needs none |
| `JsonCanonical.NormalizeMeans` | `core/src/determinism/json_canonical.rs:21-54` | normalisation succeeds exactly on integer-only values, and its result has ascending keys and the same content at every depth |
| `JsonCanonical.CanonicalBytes` | `core/src/determinism/json_canonical.rs:14-19` | the canonical bytes are the compact print of any value that has ascending keys and the same content |
| `Json.PrintLayout` | `core/src/determinism/json_canonical.rs:16-18` | quotes, brackets, commas, colons and braces of the compact form |
| `Json.PrintDecimal` | `core/src/determinism/json_canonical.rs:16-18` | an integer is printed in decimal digits of its value, with a sign if negative and no leading zero |
| `Json.EscapeSamples` | `core/src/determinism/json_canonical.rs:16-18` | the escapes of section 7 of RFC 8259, and none for other characters |
| `AuditEvent.EnvelopeNamed` | `core/src/audit/event.rs:15-25` | each of the eight fields stands under its own name |
| `AuditEvent.NamedMeans` | `core/src/audit/event.rs:15-25` | a value with these eight fields under their names and no others means the event |
| `AuditEvent.HashedExactly` | `core/src/audit/event.rs:34-42` | the event hash is that of the canonical print of the named fields with sixty-four zeros as `event_hash`, and of nothing else |
| `AuditEvent.FinalizesExactly` | `core/src/audit/event.rs:44-56` | an event is finalized exactly if its link is a hash, its type takes its details and they hold integers only; only its hash changes |
| `AuditChain.ReadExactly` | `core/src/audit/log.rs:180-211` | a line is read as an event exactly if it is the record of that event |
| `AuditChain.VerifiedExactly` | `core/src/audit/log.rs:171-246` | the lines verify as these events exactly if the non-blank ones are their records, each linked to the hash before it |
| `AuditChain.PassesExactly` | `core/src/validator/mod.rs:575-640` | the validator takes a line exactly if it has all eight keys, the link and its own hash |
| `AuditChain.CheckedExactly` | `core/src/validator/mod.rs:545-645` | it takes the lines exactly if the non-blank ones pass, each behind the stored hash of the one before |
| `AuditTail.TailSaysSo` | `core/src/audit/log.rs:109-163` | the tail is the hash and the link of the record on the last line |
| `AuditLog.AppendPromised` | `core/src/audit/log.rs:66-102` | every outcome of an append, in terms of the record it writes |
| `AuditLog.RecordStands` | `core/src/audit/log.rs:88-90` | the written line reads back as the record of the event |
| `AuditLog.AppendStands` | `core/src/audit/log.rs:66-102` | what an acknowledged append of shallow details has written stands as the record of the event it returns |
| `VaultDisk.OpensExactly` | `core/src/storage/vault.rs:154-233` | which disks open, and to which instance, file by file |
| `VaultDisk.NamesAre` | `core/src/storage/vault.rs:613-631` | blob ids have letters, digits, hyphens and underscores, generation names letters, digits and hyphens |
| `VaultDisk.CopyCarries` | `core/src/storage/vault.rs:760-789` | a copied generation has the caches and no interrupted write |
| `VaultWorld.RunStorage` | `core/src/storage/vault.rs:440-453` | over every run every view opens with the key storage the vault was created with |
| `VaultRuns.CallsStorage` | `core/src/storage/vault.rs:440-453` | so it does over every sequence of calls |
| `Base64.SymbolTable` | `core/src/storage/key_management.rs:472-473` | the sextet stands for the character of the standard alphabet at its place |
| `Base64.ValueTable` | `core/src/storage/key_management.rs:533-543` | a character stands for its place in the alphabet, padding for zero, anything else for nothing |
| `Base64.DecodeFailsExactly` | `core/src/storage/key_management.rs:510-545` | decoding fails exactly on a foreign character |
| `Base64.EncodeValue` | `core/src/storage/key_management.rs:471-507` | the places of four characters, read in base 64, are the three bytes they encode, read in base 256 |
| `Base64.DecodeThenEncode` | `core/src/storage/key_management.rs:510-545` | full groups of alphabet characters are encoded back to themselves |
| `EvalGates.AcceptsExactly` | `core/src/validator/mod.rs:1418-1552` | the reports the checker accepts, without reference to its loop |
| `EvalGates.FaultsHold` | `core/src/validator/mod.rs:1418-1552` | every fault the checker names is true of the report |
| `EvalGates.ProducesExactly` | `core/src/eval/runner.rs:64-140` | the result sets the producer takes, without reference to its loop |
| `EvalGates.ReportReports` | `core/src/eval/runner.rs:141-175` | what the producer's report says of the results |
| `EvalGates.ErrorsHold` | `core/src/eval/runner.rs:64-140` | every error the producer names is true of the results |
| `EvalGates.EvaluatedEvaluates` | `core/src/eval/runner.rs:238-314` | the evaluated results are those of the policy's gates, in dictionary order |
| `EvalGates.CoreUses` | `core/src/eval/runner.rs:259-299` | each gate of the core is evaluated by the literal checks of its line, and no other gate is |
| `EvalGates.CoreResults` | `core/src/eval/runner.rs:36-57` | every result of the core is what the literal table finds |
| `RunManager.SuccessorsExactly` | `core/src/run/manager.rs:582-597` | where a run can go from each state |
| `RunManager.DecisionDecides` | `core/src/policy/export_gate.rs:29-66` | the policy gate names the first broken condition, and lets pass exactly if none is broken |
| `RunManager.FailedGatesListed` | `core/src/run/manager.rs:131-137` | the failed gates are the ids at exactly the failing places, in order |
| `RunManager.TrailEvaluates` | `core/src/run/manager.rs:67-153` | the records of an evaluation, place by place |
| `RunManager.StageRecords` | `core/src/run/manager.rs:223-436` | the result and the literal records of each way to fail |
| `RunManager.CompletedSo` | `core/src/run/manager.rs:207-462` | what a completed export has recorded and what its archive embeds |
| `RunManager.RunManager.Proceed` | `core/src/run/manager.rs:207-462` | the export of an evaluated run that the gate has let pass |
| `Narrative.NarrativeNarrated` | `core/src/evidenceos/narrative.rs:13-39` | the printed lines, claim by claim, with nothing in between |
| `Narrative.SpansScanned` | `core/src/validator/mod.rs:1075-1094` | the scan of any text returns the markers found one behind the other |

## Left out

- VaultStorage.VaultStorage.WriteSqliteBytes: a torn in-place write is reported as such and no more is stated of the database then, because the code overwrites the only copy; database writes in the runs of `VaultWorld` are not torn.
- VaultRuns.WriteSqliteBytes: a torn write is no run of the state machine, for the same reason.
- VaultStorage.CreateVault: the keychain and DPAPI stores of the key encryption key appear as one optional cell, and the lock as what `try_lock` finds.
- RunManager.RunManager.ReadLog: `read_all_ndjson` returns the whole file, in which the stale-writer rule would admit one record of another writer for every append; the model has this manager as the only writer.
- RunManager.CompletedOrder: for the same reason it needs a sole writer; a record of another writer behind the first validation result would end the embedded log instead.
- RunManager.RunManager.ExportRun: the archive is a function of the bundle inputs, so files that an earlier export left in the bundle directory do not enter it; the preflight bundle and its evaluation are one optional input.
- Messages, times and identifiers in the records of the export pipeline.
- How the three gates evaluated on the bundle itself (allow-list, deliverables, mapping review) come to their outcome; a status text is one of the four compared texts or any other.
- Interleavings inside one operation of the audit log: each runs under the file lock and is one step; a record torn by a failing write is a proper prefix without its newline.
- Directories inside a generation are flattened to items, so a missing `blobs` directory is not distinguished from an empty one.
- Symbolic links, permissions, file modes, `fsync` durability and Windows file replacement.
- UTF-8 decoding: a file is its text, one character per Unicode scalar value.
- The table of event types with its required details is an abstract predicate.
- The choice of algorithm and the record format of encrypted blobs; sealing yields a text.
- Single checks of the bundle validator other than the audit chain, the evaluation report and the archive bounds; `overall_validation_status`; model pinning levels on their own.
- An instance that could not take its shared lock back after a rotation may read and write in the runs of `VaultWorld`; the results for runs with a one-step upgrade take every open instance to hold its lock.
- JSON numbers that are not integers are kept as their text by `JsonReader`, without the range check and rounding of a binary float.
- The ZIP container, DEFLATE, CSV and PDF writers, network and allow-list policies, and the user interface.
