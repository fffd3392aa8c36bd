# Verified models of the gateway's stateful core

Dafny models of the parts of Polypus whose correctness spans several functions or whole runs,
with proofs of what they promise. `dafny verify dfyconfig.toml` checks the project.

Code that changes state step by step is a class or a method with loops, proved against a
specification function; what the code promises is then proved about that function, or about a
step machine whose steps are the code's atomic actions.

- **Batch store** (`batch_store.dfy`, `batch_finalize.dfy`, `batch_machine.dfy`, `batch_runs.dfy`).
  Processes share a directory of files, contents and batch records. Every operation is a sequence of
  renames and removes, any of which can fail. `DiskStore` is proved to land exactly the writes of its
  plan. The machine interleaves whole processes with a step for each rename or remove, a crash
  possible after any of them, and readers that take no lock. A fault pattern is any function from
  the number of a rename or remove to whether it fails.
- **Access keys** (`key_store.dfy`, `key_ledger.dfy`, `key_machine.dfy`, `key_tags.dfy`). The key file
  refines a ledger, the map from each name to the credential last issued for it. The machine
  interleaves locked writers, lock-free readers with a cache in each process, two-phase hash upgrades
  and crashes.
- **OpenAI stream sanitiser** (`stream_sanitizer.dfy`, `stream_runs.dfy`, `stream_contract.dfy`,
  `stream_exact.dfy`): one chunk, then whole streams, what a client reads of them, and when that is exact.
- **Routers and Switchyard routes** (`routers.dfy`, `switchyard.dfy`): a small compiler from the config
  file to rendered routes, and that it keeps the meaning.
- **Outbound retries** (`outbound.dfy`): who owns each HTTP response, and how long a retry waits.
- **Model catalogue** (`inventory_cache.dfy`, `catalog.dfy`, `allow_overlay.dfy`): the write-behind cache,
  listing and retrieval, and the allow overlay with its pruner.
- **Text algorithms** (`tag_token.dfy`, `bearer_challenge.dfy`, `batch_jsonl.dfy`, `batch_input.dfy`).

`go_strings.dfy` holds the parts of Go's `strings` package the code calls, and `runs.dfy` the runs of a
step machine.

## What the proofs found

Where a promise does not hold of the code as it stands, the code is kept as it is, a lemma shows the
failure and another states exactly when the promise holds.

- The comment at `internal/batch/finalize.go:61-62` says a failed finalise leaves nothing unreferenced
  under `files/`. It leaves the content of an output whose record could not be written, and only that
  (`RollbackIsExact`).
- A delete whose second removal fails leaves content that no later delete removes (`HalfDeletedStays`,
  `OrphanStays`).
- `TryFinalizeBatch` is at most once only as long as no update puts an open record over a closed one;
  `UpdateBatch` does not check (`AppliedAtMostOnce`, `RewindLetsAnotherIn`).
- The key cache needs identity, mtime and size of the key file not to come back together: a call is
  always answered from a version of its own time exactly when no two versions of the file share them
  (`AlwaysInTimeIff`), and with a verdict of its own time exactly when versions that do, and those
  between them, give every token one verdict (`AlwaysTimelyIff`). A file and the one it replaces never share
  them, but the next may have those of the first: after two rotates of a key within the first file's
  mtime tick another process can still grant the first token (`ReusedTagGrantsReplacedToken`). A
  process's own writes are safe in any case (`OwnWritesAreSeen`).
- A chunk that mixes a finished index with an open one loses the open one's choice
  (`MixedChunkLosesAChoice`, `ExactIffWhole`).
- A flush whose write fails has cleared `dirty`, so no later flush repairs the disk until the next put
  (`FailedWriteLosesPut`).
- Ids with a blank right behind the backend's slash, such as `b/ x` and the same with a tab, tie, and
  the catalogue then depends on input order. No other trimmed ids do (`TiesIffBlankAfterBackend`,
  `OrderMattersIffBlankAfterBackend`, `OrderDoesNotMatter`).
- A blank entry in a YAML allow list makes the pruner drop a bare `backend/` overlay entry, which
  changes the list by a blank entry (`PruneSafeIsExact`) but no answer (`PruneKeepsAnswers`). A model
  added as `backend/backend/x` cannot be removed by that name
  (`RemoveUndoesAddIff`).
- The tag search misses a match that overlaps a rejected one in a border followed by a digit; version
  tags such as `v1.2.3` have no border (`SearchIsExactIffNoDigitBorder`).
- The back-off's doubling overflows, and a wait turns negative, exactly when a delay still below max
  reaches 2^63 nanoseconds when doubled (`WaitsAreCappedIff`, `OverflowIsNegative`). That takes a max
  above 2^62; the only back-off passed outside tests is `Backoff{}` (`internal/outbound/outbound.go:166`
  and `:251`), which never does (`DefaultsDoNotOverflow`).

## Model

| member | source | states |
|---|---|---|
| BatchStore.CheckedIdIff | internal/batch/ids.go:17-35 | Accepted exactly when the text is one or more id characters with any blanks around them, and then those characters are the id; refused otherwise |
| BatchFinalize.SavedFileReadsBack | internal/batch/store.go:90-127 | After a save that worked the file reads back: the content as given, and a record under the caller's id or the new one, with the caller's file name and purpose, that counts its bytes; nothing else changed |
| BatchStore.DiskStore.LandedOnDisk | internal/batch/store.go:390-398 | The disk after a call is the disk before it with exactly the renames and removes that succeeded, in order |
| BatchStore.DiskStore.Attempt | internal/statefile/atomic.go:12-46 | One rename or remove either happens whole or not at all |
| BatchStore.DiskStore.SaveFileUnlocked | internal/batch/store.go:110-127 | Content lands before its record; a failure of the second leaves the first |
| BatchStore.DiskStore.SaveFile | internal/batch/store.go:78-88 | The file is stored under its own id or the new one; on failure no id is answered |
| BatchStore.DiskStore.RemoveFileUnlocked | internal/batch/store.go:218-227 | The record goes before the content; a failure of the first leaves both |
| BatchStore.DiskStore.FileReferencedByBatchLocked | internal/batch/store.go:229-267 | The scan loop answers what the listing says: missing batches are passed over, an unreadable one ends it with an error |
| BatchStore.DiskStore.DeleteFile | internal/batch/store.go:197-216 | Every refusal (bad id, no such file, unreadable, in use, scan failed) writes nothing; otherwise the removal plan lands. A removal is tried only when no listed batch has the file as input, output or error file, and "in use" means one has |
| BatchStore.DiskStore.WriteBatchMeta | internal/batch/store.go:301-313 | One rename stores the record under its own id; a bad id writes nothing |
| BatchStore.DiskStore.SaveOutputs | internal/batch/finalize.go:70-91 | The error file is tried only after the output file; the record names what was saved and the list of written files holds the files saved whole |
| BatchStore.DiskStore.Fail | internal/batch/finalize.go:61-69 | The clean-up tries every written file whether or not an earlier removal failed, and reports whether all worked |
| BatchStore.DiskStore.CloseBatch | internal/batch/finalize.go:83-99 | The record is written last, and any failure before or at it runs the clean-up |
| BatchStore.DiskStore.TryFinalizeBatch | internal/batch/finalize.go:29-60 | Invalid, missing, unreadable and closed batches write nothing; an open one lands the finalise plan |
| BatchFinalize.HarmlessKeepsSound | internal/batch/store.go:197-237 | A write that leaves named files alone, or stores a batch whose files are whole, keeps every named output whole and unchanged |
| BatchFinalize.SafeKeepsSound | internal/batch/finalize.go:52-100 | After any number of the writes of a safe plan every named output can be read: wherever a crash comes and whatever a lock-free reader sees |
| BatchFinalize.SaveIsSafe | internal/batch/store.go:110-127 | Exact effect of a save under an id no batch names, for every pattern of failures |
| BatchFinalize.RemoveAllIsSafe | internal/batch/finalize.go:64-69 | Removing files no batch names touches nothing else, and removes all of them when it succeeds |
| BatchFinalize.CleanUpReports | internal/batch/finalize.go:61-69 | The clean-up reports success exactly when every removal it tried worked |
| BatchFinalize.StoreIsSafe | internal/batch/store.go:301-313 | Storing a record whose outputs are whole is safe and succeeds exactly when the id is good and the rename works |
| BatchFinalize.StoringIsSoundIff | internal/batch/store.go:288-299 | Storing a record leaves every named output whole if and only if its own outputs are |
| BatchStore.ScanDecides | internal/batch/store.go:229-267 | "In use" means some listed batch has the file as its input, output or error file, "unused" that every listed batch was read and none has, an error that one could not be read |
| BatchFinalize.DeleteIsSafe | internal/batch/store.go:196-216 | A delete writes only when no batch has the file as its input, output or error file, answers "in use" only when one has, and removed only when record and content are both gone |
| BatchFinalize.DeleteIsExact | internal/batch/store.go:196-216 | With nothing failing: removed if and only if the file is stored and no batch has it, in use if and only if one has, not found if and only if it is not stored; a removal takes record and content and nothing else |
| BatchFinalize.DeleteFailsClosed | internal/batch/store.go:229-237 | A file, listing or batch record that cannot be read refuses the delete |
| BatchFinalize.HalfDeletedStays | internal/batch/store.go:205-227 | The try after a half-failed delete finds no record, and leaves the content, if and only if the first removal had worked |
| BatchMachine.OrphanStays | internal/batch/store.go:205-227 | A content without a record is never removed by any run of calls that are not given its id to store under, and every delete of it is answered not found |
| BatchFinalize.OutputsEffect | internal/batch/finalize.go:70-91 | What saving the two outputs comes to, for every pattern of failures |
| BatchFinalize.FailEffect | internal/batch/finalize.go:61-69 | After the clean-up nothing that was stored before is lost, and nothing but an orphan is left when it worked |
| BatchFinalize.FinalizeEffect | internal/batch/finalize.go:52-100 | A finalise of an open batch is applied if and only if none of its renames fails; then the record names exactly the outputs, stored whole; otherwise nothing stored is lost; every write on the way is safe |
| BatchFinalize.FinalDiskSays | internal/batch/finalize.go:70-99 | The disk after an applied finalise, field by field: the outputs under their new ids, named after the batch and of purpose batch, and the record with the patch in it |
| BatchFinalize.RollbackIsExact | internal/batch/finalize.go:61-100 | A failed finalise whose clean-up works leaves batches and file records as they were; the contents too if and only if the failed write was not the record of an output whose content had landed |
| BatchFinalize.FinalizeOnlyOpen | internal/batch/finalize.go:29-60 | The answers for a bad id, a missing, an unreadable and a closed batch, which is answered as it stands, none of which writes; applied or failed exactly for validating, in_progress and cancelling |
| BatchMachine.FinalizeShape | internal/batch/finalize.go:52-100 | Only a finalise that is going to answer applied stores a batch record, as its last write, over a batch it found open |
| BatchMachine.PlanIsSafe | internal/batch/store.go:41-52 | Every plan of every operation is safe when its ids are new, its listing whole and the record it stores names only outputs that are stored |
| BatchMachine.SameOrNoneIsAdmissible | internal/batch/store.go:269-299 | A save or update that adds no output ids of its own may always be made |
| BatchMachine.StepKeepsInv | internal/batch/store.go:25-52 | Every step (begin, one rename or remove, release, crash) keeps the invariant |
| BatchMachine.RunKeepsInv | internal/batch/store.go:25-52 | So does every run of any number of processes |
| BatchMachine.NamedFilesAreStored | internal/batch/finalize.go:25-28 | At every step of every run each non-empty output and error file id of a stored batch names a file whose record and content are stored and agree in size |
| BatchMachine.ReopenedByRewind | internal/batch/finalize.go:57-59 | A closed batch is open again only if a save or update put an open record over the closed one |
| BatchMachine.TwoFinalsNeedARewind | internal/batch/finalize.go:25-28 | Between two finalises that stored a record for one batch, the first with a closing status, a save or update rewound it |
| BatchMachine.TerminalIsClosed | internal/batch/types.go:48-58 | No status is both terminal and open to a finalise, and every named one is either |
| BatchMachine.AppliedAtMostOnce | internal/batch/finalize.go:25-28 | In any run of concurrent finalises whose patches have statuses that close the batch, with no rewinds, at most one call for each batch answers applied |
| BatchMachine.TerminalAtMostOnce | internal/batch/types.go:48-58 | So it is when all the patches have terminal statuses |
| BatchMachine.ClosedBatchIsFinal | internal/batch/types.go:48-58 | Where no save or update touches a closed batch, its record never changes again and every output it names stays stored with the same content |
| BatchRuns.HolderFinishes | internal/batch/store.go:41-52 | The holder of the lock can always run to its end: all its writes land, it answers, the lock is free |
| BatchRuns.OpenBatchFinalizes | internal/batch/finalize.go:52-100 | From any reachable idle state an open batch can be finalised, to exactly the final disk |
| BatchRuns.RewindLetsAnotherIn | internal/batch/store.go:288-299 | The other half of at-most-once: any stale update that puts an open record over a closed one lets one more finalise answer applied |
| BatchRuns.OpenPatchAppliesTwice | internal/batch/finalize.go:92-99 | A patch whose own status is an open one lets a second finalise of the batch answer applied |
| BatchJsonl.SplitJSONL | internal/batch/jsonl.go:90-100 | The loop keeps, in order and trimmed, the parts between newlines that are not blank, for the one way to cut the text at its newlines |
| BatchJsonl.PartsRejoin | internal/batch/jsonl.go:90-93 | The parts with newlines between them are the text, also when it does not end in one |
| BatchJsonl.PartsAreUnique | internal/batch/jsonl.go:90-93 | There is no other way to cut the text at its newlines |
| BatchJsonl.SplitUndoesJoinIff | internal/batch/jsonl.go:90-100 | Splitting joined lines gives them back if and only if every line is one trimmed, non-blank line |
| BatchJsonl.WriteLine | internal/batch/output.go:55-79 | Which file a line goes to and its text, for encodings that fail once or twice |
| BatchJsonl.WriteSays | internal/batch/output.go:53-83 | A line is in the output file exactly when it has a body, no error code and an answer that can be encoded, and is that answer with status 200; in the error file it is its own error, the encoding failure, or a fixed text |
| BatchJsonl.BuildOutput | internal/batch/output.go:53-86 | The two files are the joined texts of their lines, the counters their lengths, and completed plus failed is the number of lines |
| BatchJsonl.EveryLineOnce | internal/batch/output.go:53-86 | Every line is in exactly one file, at the place its earlier lines give it |
| BatchJsonl.PlacesDiffer | internal/batch/output.go:53-86 | Two lines never take the same place, and they keep the input order |
| BatchJsonl.OutputSplitsBack | internal/batch/output.go:53-86 | Splitting either file gives back exactly the texts written to it, given one-line encodings |
| BatchInput.ParseBatchJSONL | internal/batch/jsonl.go:37-88 | A file is accepted if and only if each line is right by itself, all have one model and the ids differ; a bad line named is the first that spoils the lines up to it; every line comes back in order |
| BatchInput.CheckLine | internal/batch/jsonl.go:50-86 | The checks of one line pass exactly when the lines so far with it are right together |
| BatchInput.LineOkIff | internal/batch/jsonl.go:52-86 | The checks of one line come to: an id, POST in any case, the endpoint's url, a model, the field the endpoint needs, no streaming |
| BatchInput.AcceptanceIgnoresOrder | internal/batch/jsonl.go:37-88 | Swapping any two lines never changes whether the file is accepted |
| KeyStore.Store.Write | internal/admin/keys/store.go:264-279 | A write replaces the file and drops the cache; a failed one changes nothing |
| KeyStore.Store.CheckCanAdd | internal/admin/keys/store.go:143-154 | The limit is checked before the name, and the loop finds the name wherever it stands |
| KeyStore.Store.Generate | internal/admin/keys/store.go:94-127 | Every refusal in the source's order and nothing changed by it; otherwise the file has the new record and the answer is its token |
| KeyStore.Store.Rotate | internal/admin/keys/store.go:157-188 | The first record of the name gets the new hash and keeps its id, and the token names that id |
| KeyStore.Store.DropNamed | internal/admin/keys/store.go:198-206 | The loop keeps the other records in order and says whether the name was there |
| KeyStore.Store.Delete | internal/admin/keys/store.go:191-213 | The name is gone, or not found, or the write failed and nothing changed |
| KeyStore.Store.UpgradeHash | internal/admin/keys/store.go:266-280 | Written only while a record with the id still holds the legacy hash |
| KeyStore.Store.VerifyIn | internal/admin/keys/store.go:284-299 | The first record with the token's id decides, and legacy says it matched an argon2id hash |
| KeyStore.Store.ReadCached | internal/admin/keys/store.go:304-324 | A missing file is empty and not cached; an equal tag serves the cache; anything else reads and caches |
| KeyStore.Store.Authorize | internal/admin/keys/store.go:240-261 | Undisturbed, the verdict is the one of the file on disk, and a legacy match rewrites exactly that key's hash |
| KeyLedger.LedgerOfSays | internal/admin/keys/store.go:63-66 | Every well-kept file has a ledger: the credential of each name that has a secret |
| KeyLedger.TokenComesBackIff | internal/admin/keys/store.go:391-412 | A token parses back to its id and secret if and only if the id has no dot, neither is empty and the secret does not end in a blank |
| KeyLedger.ParsedToken | internal/admin/keys/store.go:401-412 | Whatever parses is, trimmed, the token of what it parses to |
| KeyLedger.AcceptedIffInLedger | internal/admin/keys/store.go:284-299 | A token is accepted if and only if it is the ledger's credential for some name |
| KeyLedger.ChangesIff | internal/admin/keys/store.go:94-213 | Exactly when an operation changes the file: a name that fits, is free and has room below 32; a name that is there; a record that still has the legacy hash |
| KeyLedger.GenerateSays | internal/admin/keys/store.go:94-127 | Generate adds exactly one name to the ledger and keeps names, ids and the limit |
| KeyLedger.RotateSays | internal/admin/keys/store.go:157-188 | Rotate changes exactly one name's secret |
| KeyLedger.DeleteSays | internal/admin/keys/store.go:191-213 | Delete takes exactly one name out |
| KeyLedger.UpgradeSays | internal/admin/keys/store.go:266-280 | An upgrade leaves the ledger as it is |
| KeyLedger.UpgradeKeepsAccepted | internal/admin/keys/store.go:263-280 | In any file at all, however stale the upgrade, the set of accepted tokens is the same before and after |
| KeyLedger.RotateStopsUpgrade | internal/admin/keys/store.go:263-265 | After a rotate of its key a pending upgrade finds nothing to write |
| KeyLedger.DeleteStopsUpgrade | internal/admin/keys/store.go:263-265 | And after a delete |
| KeyLedger.UpgradeSettles | internal/admin/keys/store.go:235-239 | Once upgraded, the token opens the same key without a legacy hash |
| KeyMachine.ChangeIsBooked | internal/admin/keys/store.go:94-213 | Each operation's change of the file is its entry in the ledger |
| KeyMachine.LookupKeepsInv | internal/admin/keys/store.go:312-324 | The mutex section of readCached answers from a version no older than the one its tag was seen at, when it does not hit a reused tag |
| KeyMachine.StepKeepsInv | internal/admin/keys/store.go:94-379 | Every step (lock, rename, cache drop, release, stat, lookup, crash, failed write or read) keeps the invariant |
| KeyMachine.FileIsTheLedger | internal/admin/keys/store.go:94-299 | In every interleaving, at every version of the file, a token is accepted if and only if it is the last issued for a name still there; names and ids are unique, at most 32 |
| KeyMachine.AnswersAreOfTheirTime | internal/admin/keys/store.go:304-330 | Where no two versions share a tag each call is answered from a version the disk held between its stat and its return, and grants exactly the tokens issued then |
| KeyMachine.AnswersNeverGoBack | internal/admin/keys/store.go:304-330 | Calls that do not overlap then never go back to an older version, in whichever process |
| KeyMachine.OwnWritesAreSeen | internal/admin/keys/store.go:373-378 | With tags of any kind a process is never served anything older than its own completed write, and an answer older than its call means that a tag seen before came back, at least two versions later |
| KeyTags.StepFollows | internal/admin/keys/store.go:304-330 | Whatever the other processes do, they can do it with one more reader beside them, whose call and cache line it leaves alone |
| KeyTags.RunFollows | internal/admin/keys/store.go:304-330 | So every run can be made again with that reader in it |
| KeyTags.LateAnswerExists | internal/admin/keys/store.go:312-330 | After any run, if versions v and j have one tag, some run with the same history answers a call for which j is the newest throughout from any version i with v <= i < j, as that version answers |
| KeyTags.AlwaysInTimeIff | internal/admin/keys/store.go:304-330 | Every run with a given history of the file answers each call from a version of the call's time if and only if no two versions a stat can see share a tag |
| KeyTags.AlwaysTimelyIff | internal/admin/keys/store.go:304-330 | Every run with a given history gives each call a verdict of the call's time if and only if, of two versions with one tag, the first and all between them give every token the verdict the second gives |
| KeyTags.ReusedTagGrantsReplacedToken | internal/admin/keys/store.go:328-330 | A run in which a key is rotated twice, the second file has the length and gets the tag of the one before the first, and a token replaced before the call is still granted |
| StreamSanitizer.Sanitizer.AfterFinish | internal/gateway/openai_stream.go:85-92 | True exactly when some choice has an index that has finished |
| StreamSanitizer.Sanitizer.MarkFinished | internal/gateway/openai_stream.go:95-101 | The finished set grows by exactly the indexes of the terminal choices |
| StreamSanitizer.EnsureFinishReasons | internal/gateway/openai_stream.go:190-200 | Only missing finish reasons are filled, with null, and changed says whether any was |
| StreamSanitizer.StripAlias | internal/gateway/openai_stream.go:238-252 | The alias goes exactly where both spellings are present, in delta and message |
| StreamSanitizer.Sanitizer.SanitizeChunk | internal/gateway/openai_stream.go:51-81 | The chunk is dropped or emitted as the function of the finished indexes says that ResultSays spells out; what is emitted keeps usage and the rest, and extra fields just when they are not to be stripped; the chunk's own terminal indexes are marked in either case |
| StreamContract.ResultSays | internal/gateway/openai_stream.go:51-81 | In terms of the JSON fields of the chunks so far: a chunk is lost exactly when it is undecodable after an index finished, or continues a finished index and has no usage; otherwise it keeps everything but the extra fields to strip, the alias next to a reasoning, and, where it continues a finished index, its choices; missing finish reasons become null; what is reported says just that |
| StreamContract.StreamSays | internal/gateway/openai_stream.go:51-81 | A sanitised stream is, in order, what becomes of exactly the chunks that are not lost |
| StreamContract.SanitizeStream | internal/gateway/openai_stream.go:54-81 | The sanitiser object driven over a stream gives that stream |
| StreamContract.NoExtraFields | internal/gateway/openai_stream.go:52-65 | No emitted chunk has Bifrost's extra fields when they are to be stripped |
| StreamRuns.SecondSeesNoMore | internal/gateway/openai_stream.go:54-101 | The indexes a second sanitiser sees finish are among those the first saw |
| StreamRuns.SanitisingIsIdempotent | internal/gateway/openai_stream.go:54-81 | A fresh sanitiser forwards every chunk of a sanitised stream, unchanged and without an intervention |
| StreamRuns.DroppedExactly | internal/gateway/openai_stream.go:42-81 | Exactly which chunks of a stream are dropped, said without the sanitiser's state |
| StreamRuns.NothingAfterFinish | internal/gateway/openai_stream.go:54-101 | No emitted chunk carries a choice of an index that was terminal in an earlier emitted one, at most one is terminal for each index, and no undecodable chunk follows a terminal one |
| StreamRuns.UsageIsConserved | internal/gateway/openai_stream.go:60-75 | The usages of the emitted stream are those of the input, in order |
| StreamExact.ExactIffWhole | internal/gateway/openai_stream.go:54-101 | Every index gets precisely its choices up to its first terminal one if and only if no chunk mixes late choices with others or continues an index it finishes |
| StreamExact.LagAndOverGrow | internal/gateway/openai_stream.go:54-101 | What a chunk loses or emits too much of an index is never made up for |
| StreamExact.SingleChoicesAreExact | internal/gateway/openai_stream.go:54-101 | Streams of chunks with at most one choice are exact for every index |
| StreamExact.MixedChunkLosesAChoice | internal/gateway/openai_stream.go:62-75 | A chunk that continues a finished index next to an open one loses the open one's choice |
| Routers.DecimalIsInjective | internal/config/routers.go:107-109 | Printed fallback positions are distinct |
| Routers.DecimalSpells | internal/config/routers.go:107-109 | They are digits that spell the number, with no zero in front |
| Routers.ParseFallback | internal/config/routers.go:337-355 | Accepted exactly when there are two or more leaves, none blank and all different; kept in order |
| Routers.ParseClassifierTargets | internal/config/routers.go:359-390 | Accepted exactly when names are valid, different once trimmed and not the judge's, each with a leaf; the targets stand in the order of their sorted keys |
| Routers.ParseClassifier | internal/config/routers.go:429-491 | Accepted exactly when the parts are there and the default is one of the targets; its emitted names then differ |
| Routers.ParseRoute | internal/config/routers.go:262-333 | Accepted exactly for the known kinds with their fields, and the route is of the file's kind and says what the file says, with names that do not clash |
| Routers.ReadingIsUnique | internal/config/routers.go:262-333 | A route that says what the file says is the only one |
| Routers.ParseNamedRouters | internal/config/routers.go:229-260 | Accepted exactly when every entry is; each name stands for the last of its keys in sorted order, and every key's name is there |
| Routers.ParsingIsUnique | internal/config/routers.go:229-260 | A config file has exactly one reading, however its maps are walked |
| Routers.CheckLeaves | internal/config/routers.go:519-536 | One router's leaves pass exactly when each can be dialled and no other router owns its target |
| Routers.ValidateRouters | internal/config/routers.go:508-539 | Accepted exactly when all are chat routers of known kinds, all leaves can be dialled and no two routers emit one target name |
| Routers.AcceptedIffServable | internal/config/routers.go:508-539 | For parsed routers, in terms of the routes themselves: all chat, every leaf a route can be sent to can be dialled, also a passthrough's, and no name is emitted by two routers |
| Switchyard.AddFallback | internal/switchyard/render.go:136-151 | Targets, names and weights in leaf order, weight on the first |
| Switchyard.AddStageRouter | internal/switchyard/render.go:153-167 | The capable and the efficient target and a route over them |
| Switchyard.AddLLMClassifier | internal/switchyard/render.go:169-197 | Refused unless custom; the judge's target, the named targets and a route over them |
| Switchyard.Render | internal/switchyard/render.go:86-119 | Fails exactly when some router cannot be rendered; otherwise the file of the routers in the order walked |
| Switchyard.RenderedDescribes | internal/switchyard/render.go:86-119 | After any run of routers the tables hold exactly their leaves and routes |
| Switchyard.RenderingKeepsMeaning | internal/switchyard/render.go:86-197 | Following each route's target names through the tables leads to the router's own leaves, called with the Polypus client at the base URL, without retries just for fallbacks; names, ids, order, weights, judge and default are the router's; every target is a leaf; there are no other routes and no other clients |
| Switchyard.RenderingIgnoresOrder | internal/switchyard/render.go:95-113 | The file is the same for every order of walking the router map |
| Switchyard.Compile | internal/switchyard/render.go:18-24 | From config file to routes: rendered exactly when every entry parses, every leaf can be dialled and no two routers emit one name; the routes mean what the config says, through the clients it takes |
| Switchyard.CompilingIsAFunction | internal/switchyard/render.go:86-119 | The rendered file is a function of the config file |
| Outbound.Response.DrainAndClose | internal/outbound/outbound.go:457-466 | A replaced answer is read up to the limit and closed, also when reading fails |
| Outbound.TryOnce | internal/outbound/outbound.go:376-407 | The answer an attempt replaces is drained first, and at most the newest stays open |
| Outbound.Retry | internal/outbound/outbound.go:373-407 | Sends, answer and outcome are those of the attempt the policy ends with |
| Outbound.Do | internal/outbound/outbound.go:356-424 | The answer is that of the attempt the retries end with, and the sends are those up to it; answers that were replaced were a 429 or 5xx, drained and closed; the last one is returned open without an error, or closed with one when the context had ended and its status was 400 to 599; no answer is CodeTimeout, CodeCanceled or CodeUnavailable by how the context had ended |
| Outbound.OnlyRetryablesAreRetried | internal/outbound/outbound.go:229-238 | Only a retryable transport failure, a 429 or a 5xx is followed by another attempt, never an answer to a health check nor a body that cannot be sent again |
| Outbound.RetriesStopForAReason | internal/outbound/outbound.go:255-272 | A 429, 5xx or retryable transport failure ends the retries only when they are spent, the wait was cut, the body cannot be sent again or the Retry-After outlasts the deadline |
| Outbound.LastAttemptEnds | internal/outbound/outbound.go:255-272 | The loop ends with the one attempt all before which were worth another and had it, and which was not or could not have one |
| Outbound.EndsOnce | internal/outbound/outbound.go:255-272 | There is only one such attempt |
| Outbound.Delay | internal/outbound/outbound.go:277-291 | The delay is the Retry-After as sent, or what the doubling loop comes to in Go's 64-bit arithmetic, capped at max and spread by the jitter's draw |
| Outbound.JitterIsAFifth | internal/outbound/outbound.go:288-290 | Jitter leaves a delay within a fifth of what it was, for every draw |
| Outbound.JitterReaches | internal/outbound/outbound.go:288-290 | The least draw takes a fifth off and the middle one nothing; a wait that overflowed is spread like its positive twin |
| Outbound.RetryDelay | internal/outbound/outbound.go:253-291 | With the defaults filled in, and where no doubling overflows, the delay is the Retry-After as sent, or within a fifth of min doubled for each earlier retry and capped at max |
| Outbound.DefaultsDoNotOverflow | internal/outbound/outbound.go:244-254 | The production back-off never overflows, however many the retries |
| Outbound.ProductionWaits | internal/outbound/outbound.go:156-162 | The production back-off waits 1, 2, 4 and then 8 seconds before jitter |
| Outbound.UnsetIsProduction | internal/outbound/outbound.go:253-262 | A field that is zero or negative takes the production value |
| Outbound.DoubledIsCapped | internal/outbound/outbound.go:283-287 | Where no doubling overflows, the loop's result is min times a power of two, capped at max |
| Outbound.OverflowIsNegative | internal/outbound/outbound.go:283-287 | A delay below max that reaches 2^63 when doubled is a negative wait |
| Outbound.WaitsAreCappedIff | internal/outbound/outbound.go:274-287 | All waits of the first n retries are min times a power of two capped at max if and only if no delay that is still below max reaches 2^63 when doubled |
| InventoryCache.StepKeepsInv | internal/gateway/models.go:110-158 | Every step of puts and flushes keeps the invariant, and the disk never goes back in put order |
| InventoryCache.RunKeepsInv | internal/gateway/models.go:110-158 | So does every interleaving |
| InventoryCache.CallsStay | internal/gateway/models.go:110-130 | A flush that was called is waiting, at work or returned from then on |
| InventoryCache.ShowsPutOrLater | internal/gateway/models.go:150-158 | A table that includes a put shows it or a later one for its key |
| InventoryCache.FlushedPutsStay | internal/gateway/models.go:106-130 | With writes that succeed, after a flush called after a put has returned the disk shows that put or a later one of its key, from then on, also when another flush had cleared dirty |
| InventoryCache.DiskCurrentIffLastWriteOk | internal/gateway/models.go:118-129 | Between flushes the disk shows everything marshalled if and only if the last write succeeded |
| InventoryCache.FailedWriteLosesPut | internal/gateway/models.go:118-129 | A failed write leaves dirty cleared, and a later flush returns with the put still missing from the disk |
| InventoryCache.Cache.DoPut | internal/gateway/models.go:150-158 | An empty inventory is not remembered; any other replaces the key's and sets dirty |
| InventoryCache.Cache.Get | internal/gateway/models.go:132-148 | Only an inventory that is there, not empty and not expired |
| InventoryCache.Cache.Flush | internal/gateway/models.go:110-130 | An undisturbed flush is the machine's steps: nothing when clean, one write when dirty |
| Catalog.PartitionModels | internal/gateway/apicatalog.go:187-203 | The models of one surface, in order |
| Catalog.SurfacesPartition | internal/gateway/apicatalog.go:187-203 | The two surfaces hold every model as often as the input does |
| Catalog.SurfacesAreDisjoint | internal/gateway/apicatalog.go:147-164 | A model is on the SystemOne surface exactly when it is listed there, on the other exactly when not |
| Catalog.ResolveIff | internal/gateway/apicatalog.go:166-185 | An id is taken for a backend's model exactly when it has that backend's prefix, or has none and that backend is the default one |
| Catalog.ListedIff | internal/gateway/apicatalog.go:147-164 | An id is on the SystemOne surface exactly when SystemOne is on and the backend it stands for serves it and its list, or the default model's id, names the model |
| Catalog.DedupeModels | internal/gateway/apicatalog.go:223-241 | One model for each key, in strictly increasing id order |
| Catalog.IncreasingIsCanonical | internal/gateway/apicatalog.go:237-240 | That order fixes the list, whatever order the map was walked in |
| Catalog.LookupModelForSurface | internal/gateway/apicatalog.go:211-220 | The listed model with the id's key, or none |
| Catalog.ListingAndRetrievalAgree | internal/gateway/apicatalog.go:205-220 | Looking up a listed id gives that very entry, any id of the surface the entry of its model, any other id nothing |
| Catalog.KeySplits | internal/gateway/apicatalog.go:248-260 | A key splits at its first slash into a backend and a model exactly when it is a composite one |
| Catalog.SameKeyIff | internal/gateway/apicatalog.go:248-260 | Two ids are one entry exactly when they are equal once trimmed or stand for one model of one backend |
| Catalog.SameKeySameBackend | internal/gateway/apicatalog.go:248-260 | Ids with one key belong to one backend |
| Catalog.KeptIsBest | internal/gateway/apicatalog.go:262-286 | The kept id is no worse in form and length in bytes than any other of its key |
| Catalog.KeptSays | internal/gateway/apicatalog.go:262-286 | The kept id has its backend's prefix if any id of the model has, else no slash if any has none, and is a shortest of its form |
| Catalog.OrderDoesNotMatterIffNoTies | internal/gateway/apicatalog.go:223-286 | The catalogue is the same for every input order if and only if no two models tie for the best id of a key |
| Catalog.TiesIffBlankAfterBackend | internal/gateway/apicatalog.go:248-286 | A trimmed id ties with another trimmed id if and only if it has a blank right behind its backend's slash |
| Catalog.OrderDoesNotMatter | internal/gateway/apicatalog.go:223-286 | For trimmed, different ids without such a blank: one best-ranked model for each key, the same for every input order |
| Catalog.OrderMattersIffBlankAfterBackend | internal/gateway/apicatalog.go:223-286 | Next to any id with such a blank, and to no other, a trimmed id can be listed so that the order of the two decides which is kept |
| AllowOverlay.MatchesIff | internal/config/models.go:97-127 | An entry matches a model exactly when neither is blank and the two, bare or with the backend's prefix, name one model |
| AllowOverlay.ApplyAllowOverlay | internal/config/allow_overlay.go:108-141 | Each gated backend's list grows by its own entries that are new; every unknown or ungated backend is reported, and only those |
| AllowOverlay.OverlayExtends | internal/config/allow_overlay.go:122-133 | An overlay only adds: what was allowed stays, every entry that names a model is allowed afterwards, and nothing that neither the list nor an entry names |
| AllowOverlay.OverlayApplied | internal/config/allow_overlay.go:108-141 | Gated backends of the overlay get their entries, every other backend stays as it is |
| AllowOverlay.OverlayFile.Add | internal/config/allow_overlay.go:152-180 | A model that no entry names is appended, one that is named changes nothing, blank names are refused |
| AllowOverlay.OverlayFile.Remove | internal/config/allow_overlay.go:191-233 | Exactly the entries that name the model go, the backend with the last of them, and other backends stay |
| AllowOverlay.RemoveUndoesAddIff | internal/config/allow_overlay.go:152-233 | Removing undoes adding if and only if the model's id does not repeat the backend's prefix and the file held no empty list |
| AllowOverlay.Prune | internal/deploy/overlay/prune.go:22-45 | A slug is removed exactly when the backend's YAML list has an entry of its normal form, kept otherwise, and a backend with none left is dropped, for any order of the map |
| AllowOverlay.CanonicalIsNormalize | internal/deploy/overlay/prune.go:57-64 | The pruner's normal form is the config's own for trimmed backend ids |
| AllowOverlay.PrunedAddsNothing | internal/config/models.go:98-124 | A pruned slug is blank or already allowed by any list that contains the YAML one |
| AllowOverlay.PruneKeepsConfig | internal/deploy/overlay/prune.go:22-64 | Applying the pruned overlay gives exactly the config that applying the original gives |
| AllowOverlay.PruneKeepsAnswers | internal/deploy/overlay/prune.go:22-64 | Whatever the YAML lists hold, blank entries too, the two configs allow the same models |
| AllowOverlay.PruneSafeIsExact | internal/deploy/overlay/prune.go:47-64 | The very same list results for all overlays if and only if the YAML list has no blank entry or allows the backend's bare prefix |
| TagToken.ContainsTagToken | internal/deploy/images/wait_actions.go:247-268 | Terminates; true only if the tag occurs with no digit behind it, and false only if it does not when the tag can be searched for |
| TagToken.NextDigitDecides | internal/deploy/images/wait_actions.go:247-268 | A tag with one character behind it is found unless that is a digit |
| TagToken.ScanComplete | internal/deploy/images/wait_actions.go:247-268 | A free match behind a rejected one is found unless the overlap is a border followed by a digit |
| TagToken.SearchIsExactIffNoDigitBorder | internal/deploy/images/wait_actions.go:247-268 | The search is right on every text if and only if no border of the tag is followed by a digit |
| BearerChallenge.ParseBearerChallenge | internal/clients/registry/registry.go:347-373 | The loop ends on every input and gives the specified parameters; none for another scheme |
| BearerChallenge.OnlyBearerIsRead | internal/clients/registry/registry.go:347-351 | There are parameters exactly for the scheme Bearer, in any case, with a space behind it |
| BearerChallenge.ParseUndoesPrint | internal/clients/registry/registry.go:344-373 | Parsing a printed challenge gives back its parameters for any case of the scheme, padding and optional white space; values keep any equals sign and quoted ones any comma |
| BearerChallenge.CollectedHoldsEach | internal/clients/registry/registry.go:355-372 | With keys that differ in lower case the map holds each value under its key and nothing else |
| BearerChallenge.QuotedValueComesBackIff | internal/clients/registry/registry.go:360-365 | A quoted value comes back if and only if it has no quote inside and no blank at an end |
| BearerChallenge.UnclosedQuoteEnds | internal/clients/registry/registry.go:360-364 | A quote that is not closed ends the reading |
| BearerChallenge.EmptyValueIsRead | internal/clients/registry/registry.go:366-371 | A parameter without a value is read as empty and the next one is read |

## Left out

- HTTP handlers, spans, logging, the CLI, Docker, polling and proxies: plumbing over libraries and I/O.
- JSON, YAML and TOML: encode and decode are inverse on the modelled datatypes, and every element of `choices` is an object. A batch input line's decoder and an output line's encoder are parameters, and the encoder may refuse.
- SHA-256, argon2id and randomness: hashes are collision-free constructors, with one for encodings that verify nothing; ids and secrets are parameters that are new.
- The operating system: a rename or remove is one step, the file lock is mutual exclusion that ends with its process, a stat is a tag. A lock that cannot be had is an operation that never begins.
- Removing the temporary files of writes that failed, and a directory sync that does not work: they change nothing a reader sees.
- BatchMachine.PlanIsSafe: ids that newID draws are assumed new, a file is not saved again under the id of an output, and the records callers save or update are assumed to name only outputs that are stored, which StoringIsSoundIff shows is necessary; the callers in `internal/gateway/batches` add no output ids of their own.
- BatchStore.DiskStore.WriteBatchMeta: stands for SaveBatch and UpdateBatch; the id, kind and creation time SaveBatch fills into an empty record are the caller's here.
- Reads of files, batches and listings (GetFile, ReadFileContent, GetBatch, ListBatches): each looks at the disk of one step, which the machine already quantifies over.
- Whether a batch's input file still exists: it is checked outside the write lock and is no invariant of the store.
- KeyMachine.AnswersAreOfTheirTime: assumes that no two versions of the key file share a tag, which AlwaysInTimeIff shows is necessary. The tag is opaque, but for differing from that of the file it replaces.
- CheckGenerate, Verify and List of the key store: they read as Generate and Authorize do.
- Routers.ParseRoute: the checks of single fields (capability slots, thresholds, strict keys, response schemas) are one given outcome, and the fields they copy are one opaque setting.
- Routers.ValidateRouters: the check that a leaf can be dialled is a parameter, and the reserved backend id is refused before.
- Error texts and which of several broken routers is named first.
- Switchyard.Render: the base URL is taken as already normalised, and the encoding of the file is not modelled.
- Outbound.Do: failsafe-go's retry loop is "repeat while retryable, at most three times, while the context lives", its breaker a refusal that may come at any call. DoOnce, Run and the breaker's own state are not modelled.
- Outbound.Delay: the jitter is computed exactly from the number of the draw; float64's rounding, and its conversion of a jittered delay of 2^63 nanoseconds or more, are not modelled.
- InventoryCache.FlushedPutsStay: one process; two gateways that share the disk copy overwrite each other's.
- Catalog.KeySplits: backend ids have no slash and are not "router", as loading the config makes sure; which backend is EffectiveSystemOneBackend is given.
- ToLower and EqualFold on letters outside ASCII: backend ids, schemes, tags and parameter names are ASCII.
- Bytes that are not UTF-8: text is a sequence of code points, and every separator searched for is ASCII.
