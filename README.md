# Universal dialog generator — a verified model of its core

The universal dialog generator fills a JSONL file with synthetic dialogs.
Worker threads pick a theme from templated word banks, build a prompt, and
ask a chat-completion API for a JSON record. They check the record against
the output schema and append it through a rotating, locked writer. A
companion script later repairs replicas that contain stray CJK or
replacement characters. This project models the logic under the threads,
sockets and OS file calls, module by module, and proves what each part
promises.

- **Storage** (`storage.dfy`): the file system is a map from file (primary,
  numbered backups, quarantined copies) to its contents: the lines ended by a
  line break, then whatever follows the last break. A file can end in a line
  without a break, and appending text joins onto it.
  - `FileLock` is the sidecar lock's small state machine. A busy lock answers
    false at once.
  - `Writer` is the append-only writer: closed check, rotation when the
    primary reaches the size limit, the append, and the written and error
    counters.
  - Rotation is stated both as the renaming loop and file by file.
- **ApiClient** (`api_client.dfy`): `generate_dialog`'s retry loop.
  - The loop runs over one abstract outcome per attempt: raises, empty
    response, or an answer.
  - It is a method on a `Client` class, proved against a specification `Run`.
  - Pure helpers: timeout per attempt, error classification, the capped
    back-off with jitter, response processing and the cost table.
- **Validator** and **DialogValidator** (`validator.dfy`,
  `dialog_validator.dfy`): pure functions over a JSON value (`JsonValue`):
  - field filtering in schema order, the three-stage record check, recursive
    cleaning and the validation report;
  - the dialog rules (replica count and length), speaker-prefix stripping,
    Jaccard similarity and the alternation heuristic.
- **Worker** (`worker.dfy`): `WorkerThread`, with its item step, group step
  over the configured languages and main loop.
  - The main loop is a method proved against a specification of its
    iterations.
  - The worker writes through a shared `Storage.Writer`.
- **Pool** (`pool.dfy`): `ThreadPoolManager`: start, stop, group
  statistics, restart of dead workers and the health report. A worker
  thread is modelled as a record of what the pool can observe of it.
- **Config** (`config.dfy`): `ConfigManager`:
  - loading with the empty-file check;
  - default filling that never overwrites a present value;
  - the semantic rules (ordered ranges, distinct language codes, known
    template placeholders);
  - the guarded lookups.
- **Theme** (`theme.dfy`): `ThemeGenerator`: the construction check,
  placeholder substitution with the random draws as a parameter, the two
  mutators, and the combination count.
- **Prompt** (`prompt.dfy`): `PromptEngine`'s construction check, the format
  section, prompt assembly, the custom-instruction splice and the length
  heuristic.
- **Cleaner** (`cleaner.dfy`): the artifact cleaner script.
  - Artifact detection and the cleaning prompt.
  - Per-record cleanup, with the API as an oracle, on a `Record` object
    changed in place.
  - The batch loop's output, and the artifact report over the lines of a
    file.
- **Text**, **JsonValue**, **Wrappers** (`text.dfy`, `json.dfy`,
  `wrappers.dfy`): the Python string operations and dict behaviour the
  modules rely on, and `Option`/`Result`.

Randomness, the clock, the API's replies, `json.loads`/`json.dumps` and
file reads reach the model as parameters.

## Model

| member | source | states |
|---|---|---|
| Storage.NonBlankCount | storage/thread_safe_writer.py:298-306 | the number of non-blank terminated lines never exceeds the number of lines |
| Storage.StartupCount | storage/thread_safe_writer.py:298-306 | the start-up count takes in every non-blank line `readlines` yields, an unterminated last line included: at most one more than the terminated lines, no more than them when the file ends in a break, and exactly one more than the non-blank terminated lines when the last line is unterminated and not blank |
| Storage.AppendTextGrows | storage/thread_safe_writer.py:379-380 | appending text to a file keeps every line already there and grows the size by exactly the text |
| Storage.AppendTextNoBreak | storage/thread_safe_writer.py:379-381 | text without a line break only extends the file's unterminated last line |
| Storage.AppendOneLine | storage/thread_safe_writer.py:379-384 | appending one JSON line and its break joins the line onto the unterminated last line (a line of its own when the file ended in a break) and ends it, grows the file by the line plus the break, keeps the earlier lines and adds at least one line |
| Storage.FileLock.constructor | storage/thread_safe_writer.py:69-80 | a new lock is not held and has no open handle |
| Storage.FileLock.Acquire | storage/thread_safe_writer.py:82-149 | an expired timeout raises the timeout error and changes nothing; an open failure raises the unexpected-error exception; a granted flock holds the lock; a busy lock returns false at once with the handle closed; any other flock errno raises the system-lock error; the sidecar file exists after every attempt that opened it |
| Storage.FileLock.Release | storage/thread_safe_writer.py:175-193 | releasing ends unlocked with no handle, does nothing when the lock was not held, and removes the sidecar exactly when a held handle is released |
| Storage.Rotated | storage/thread_safe_writer.py:318-348 | after rotation the primary exists and is empty |
| Storage.ShiftDownSlots | storage/thread_safe_writer.py:332-337 | the descending rename loop moves each backup i to i+1 for i from the top slot down to 1 and leaves slot 1 vacated and every other file alone |
| Storage.RotatedSlots | storage/thread_safe_writer.py:327-345 | rotation, file by file: the old primary becomes backup 1, backup n-1 becomes backup n for 2 <= n <= backup_count, the primary is empty, quarantined files and slots above backup_count are untouched |
| Storage.RotationKeepsBackupsWithin | storage/thread_safe_writer.py:327-341 | if backups only occupy slots 1..backup_count (1 when backup_count < 1) before rotation, they still do after it |
| Storage.NeedsRotation | storage/thread_safe_writer.py:308-316 | specification: rotation is due when the primary exists and its size has reached the limit (a failed size check counts as not due); used by Write and RotatedSlots |
| Storage.Write | storage/thread_safe_writer.py:354-398 | specification of `write_dialog` on an open writer: a failed rotation or lock counts one error and appends nothing; otherwise the append works on the possibly rotated files, and a raising open or write appends nothing while a raising flush, fsync or close leaves what had reached the primary; its consequences are WriteSucceedsExactly, SuccessfulWriteAppendsOneLine, FailedWriteCountsError, FlushFailureLeavesFragment and FsyncFailureKeepsLine |
| Storage.WriteSucceedsExactly | storage/thread_safe_writer.py:364-398 | `write_dialog` on an open writer returns true exactly when rotation, locking and the append all succeed |
| Storage.SuccessfulWriteAppendsOneLine | storage/thread_safe_writer.py:370-389 | a successful write appends the record and a break to the (possibly rotated) primary: the record ends the primary's unterminated last line, so it is a line of its own exactly when the primary ended in a break; earlier lines are kept, the size grows by the line plus the break, all other files are as they were, and only the written count goes up, by one |
| Storage.FailedWriteCountsError | storage/thread_safe_writer.py:379-398 | a failed write adds one to the error count and never raises the written count; unless the append failed after bytes reached the primary, the files are as they were or rotated (partial rotation is listed under Left out); after such a late failure only the primary has changed, keeping its lines and growing by the part of the line and break that reached it |
| Storage.FlushFailureLeavesFragment | storage/thread_safe_writer.py:379-381 | a flush that raises before the break leaves the record's first characters as the primary's unterminated last line |
| Storage.FsyncFailureKeepsLine | storage/thread_safe_writer.py:379-384 | an fsync that raises after the whole line reached the primary leaves the record in the file, uncounted, with the write reported as failed |
| Storage.WriteKeepsCountWithinLines | storage/thread_safe_writer.py:347-384 | across a write, with or without rotation or failure, a written count within the primary's terminated lines stays within them, and one within one more than them (the start-up count of an unterminated last line) stays within one more |
| Storage.JoinedLineCountedTwice | storage/thread_safe_writer.py:379-384 | a non-blank unterminated last line counted at start-up is counted again when the next record is joined onto it: the primary gains one line and the count two, ending one above the number of lines when every line is non-blank |
| Storage.Writer.constructor | storage/thread_safe_writer.py:210-263 | a new writer creates an empty primary when none exists, otherwise takes the start-up count of the existing one (zero if that read fails), computes the size limit as megabytes times 1024*1024, starts open with no errors |
| Storage.Writer.RotateFiles | storage/thread_safe_writer.py:318-348 | the rotating step leaves the files as `Rotated` describes and resets the written count to zero, counters otherwise unchanged |
| Storage.Writer.WriteDialog | storage/thread_safe_writer.py:354-398 | a closed writer returns false and changes nothing; an open one moves to exactly the state and result of the `Write` step (rotation when due, lock, append, counters), and leaves the lock's sidecar file present exactly when the lock attempt opened it and did not hold it |
| Storage.Writer.AppendRecord | storage/thread_safe_writer.py:376-384 | the append under the file lock moves the files and counters exactly as the `LockedAppend` step of `Write` does, reports success exactly when neither the open or write nor a later step raised, and keeps the written count within one more than the terminated lines |
| Storage.Writer.Close | storage/thread_safe_writer.py:416-427 | closing is idempotent, marks the writer closed and keeps files and counters |
| Storage.Writer.Stats | storage/thread_safe_writer.py:401-414 | the statistics report the written and error counts and the closed flag, and a non-negative size that is zero when the primary is missing |
| Storage.Quarantined | storage/thread_safe_writer.py:288-296 | quarantining renames the primary to the timestamped corrupted name, keeping its contents |
| Storage.OpenWriter | storage/thread_safe_writer.py:246-306 | when the integrity read of an existing primary raises, construction fails with the primary quarantined; otherwise it yields a fresh open writer whose files and count are as the constructor states |
| ApiClient.AttemptTimeout | core/api_client.py:108 | the timeout of attempt k is the configured timeout times k+1, so never below the configured one |
| ApiClient.Classify | core/api_client.py:130-144 | each HTTP-layer exception maps to its message: timeout (carrying the attempt's timeout), connection error, 429 rate limit, 401 bad key, 403 forbidden, any other status as an HTTP error with its code, anything else unknown; each in both directions |
| ApiClient.ClassifyKeepsStatus | core/api_client.py:134-142 | the classified failure carries the HTTP status code exactly when the exception was an HTTP error |
| ApiClient.RetryDelay | core/api_client.py:182-201 | specification: base delay doubled per attempt, raised by the jitter and capped at 10 seconds; its bounds are RetryDelayBounds |
| ApiClient.RetryDelayBounds | core/api_client.py:182-201 | the retry delay never exceeds the 10-second cap and lies between 1.1 and 1.3 times the exponential back-off (or is the cap) |
| ApiClient.JitterBetween | core/api_client.py:196-199 | adding a jitter drawn from [0.1, 0.3] times the delay gives between 1.1 and 1.3 times the delay |
| ApiClient.BackoffMonotone | core/api_client.py:193 | the back-off `base_delay * 2 ** attempt` does not decrease from one attempt to the next |
| ApiClient.StepFacts | core/api_client.py:71-90 | one attempt counts one try, one failure exactly when it raises, one success exactly when it is answered, and a pause (at most the cap) only after a failure that is not the last attempt; only a text answer can return a result or add tokens |
| ApiClient.Run | core/api_client.py:69-92 | specification of the retry loop from attempt `k`: stop at the first attempt that returns, otherwise this attempt's effects then the rest; Client.GenerateDialog is proved equal to it, and RunBounds to FirstAnswerEndsRun state its properties |
| ApiClient.RunBounds | core/api_client.py:69-92 | a call makes between one and four attempts; successes and failures each number at most the attempts; a result implies a success |
| ApiClient.RunPauses | core/api_client.py:81-90 | the call pauses once after every failed attempt except a failure of the fourth and last one |
| ApiClient.RunPausesCapped | core/api_client.py:86-88 | every pause of a call is at most the 10-second cap |
| ApiClient.UnfoldRun | core/api_client.py:71-77 | the attempt loop stops at the first attempt answered with text and otherwise goes on to the next |
| ApiClient.AllAttemptsRaise | core/api_client.py:71-92 | when every attempt raises, the call makes four attempts, counts four failures and no success, pauses three times and returns None |
| ApiClient.EmptyResponsesNeverPause | core/api_client.py:75-79 | empty responses are neither failures nor followed by a pause: four attempts, no counts, None |
| ApiClient.FirstAnswerEndsRun | core/api_client.py:75-77 | the first attempt answered with text ends the call after exactly that many attempts, with that attempt's processed response as the result |
| ApiClient.NoContentCountsTwice | core/api_client.py:75-82 | an answer whose content is None is counted both as a success and as a failure and retried; from attempt 0 that is four of each and no result |
| ApiClient.EstimateCost | core/api_client.py:238-256 | the estimated cost is never negative |
| ApiClient.CostMonotone | core/api_client.py:246-255 | more tokens never cost less, and an unknown model is priced as gpt-3.5-turbo |
| ApiClient.RateBound | core/api_client.py:226-227 | a success count of at most four per request gives a rate between 0 and 400 percent |
| ApiClient.Client.constructor | core/api_client.py:19-41 | a new client has zero counters and takes the configured timeout and model, or 30 seconds and gpt-3.5-turbo when absent |
| ApiClient.Client.GenerateDialog | core/api_client.py:58-92 | the retry loop returns exactly the result, pauses and failure messages of the specification `Run`, adds one request and that run's successes, failures and tokens to the counters, and keeps the at-most-four-per-request invariant |
| ApiClient.Client.UsageReport | core/api_client.py:219-236 | the usage report carries the counters, a success rate between 0 and 400 percent that is 0 without requests, and the estimated cost of the tokens used |
| ApiClient.Processed | core/api_client.py:156-180 | `_process_response` yields no result exactly when the stripped content is blank or does not parse, otherwise the parsed value; tokens are added only together with a result, and only the reported usage |
| Validator.PresentFields | core/validator.py:124 | the present fields are exactly the declared fields the record has, and there are no more of them than declared fields |
| Validator.FilterOutputFields | core/validator.py:34-54 | the filtered record has exactly the declared fields the record has, each with the record's value, and no key twice |
| Validator.FilterInSchemaOrder | core/validator.py:47-49 | with a schema that names each field once, the filtered record lists its keys in schema order |
| Validator.ValidateData | core/validator.py:60-88 | specification of `validate_data`: structure, then presence, then content; what a passing record guarantees is ValidDataSurvivesFilter |
| Validator.ValidDataSurvivesFilter | core/validator.py:60-213 | a record that passes `validate_data` against a non-empty schema keeps at least one field when filtered, and every surviving field passes the length rule |
| Validator.CleanStringIsPiece | core/validator.py:251-258 | cleaning a string only trims its ends: the result occurs contiguously in the original |
| Validator.CleanStringKeepsPlainText | core/validator.py:251-258 | a string without surrounding whitespace or a surrounding quote pair is left unchanged by cleaning |
| Validator.CleanFieldValue | core/validator.py:241-269 | cleaning keeps the kind of every value, the length of lists, the keys of dicts and the value of scalars; a cleaned string occurs in the original; this holds for the elements of lists and dicts too |
| Validator.SanitizeData | core/validator.py:215-235 | the sanitised record has exactly the record's checked fields (all fields when nothing is declared), with no key twice |
| Validator.SanitizeCleansValues | core/validator.py:228-233 | every field the sanitised record keeps carries the cleaned value of that field of the record |
| Validator.BoolCountsAsNumber | core/validator.py:332-335 | because a Python bool is an int, a bool field is recorded as a number and the bool entry is never produced |
| Validator.FieldStats | core/validator.py:320-337 | at most one statistics entry per member of the record |
| Validator.FieldStatsEntries | core/validator.py:320-337 | `(k, e)` is an entry exactly when some member with key `k` has a value whose entry is `e`: a string or list gives its length, a number or bool a number entry, a dict its keys, None nothing |
| Validator.FieldStatsAppend | core/validator.py:320 | the entries follow the record's member order: the entries of two runs of members joined are the entries of each, joined |
| Validator.DeclaredKeys | core/validator.py:320-322 | a key is reported present exactly when the schema declares some field, declares this one, and the record has it |
| Validator.DeclaredKeysAppend | core/validator.py:320-322 | the present fields follow the record's member order: two runs of members joined give the present keys of each, joined |
| Validator.TotalCharsAppend | core/validator.py:325-327 | the character total of two runs of members is the sum of their totals |
| Validator.TotalCharsOfOne | core/validator.py:325-327 | a single member adds the full unstripped length of a string value and nothing for any other value |
| Validator.MissingFields | core/validator.py:348-351 | the missing fields are exactly the declared fields the record lacks |
| Validator.GetValidationReport | core/validator.py:291-359 | the report's verdict is `validate_data`'s; a record that is not a non-empty dict gets exactly one structure error, no statistics and no present fields; otherwise no error, the present fields are exactly the declared keys the record has (in record order, none for an empty schema), the field statistics and character total are those of the members, the present count is the number of present fields and at most the number of fields, and on a well-formed record there is a warning exactly when some declared field is missing, the single warning listing the missing declared fields in schema order |
| DialogValidator.NewRules | core/dialog_validator.py:16-51 | a new dialog validator keeps the schema's declared fields and the eleven speaker-prefix patterns |
| DialogValidator.LabelMatch | core/dialog_validator.py:30-38 | a label pattern matches exactly when one of its names followed by a colon starts the text, ignoring case, and the match ends at that colon |
| DialogValidator.EnclosedMatch | core/dialog_validator.py:40-44 | an enclosed pattern matches when the text starts with the opening character and a closing character plus colon follows with no line break between, the shortest such match |
| DialogValidator.MatchLength | core/dialog_validator.py:30-44 | a prefix match is never empty and never longer than the text |
| DialogValidator.RemovePrefix | core/dialog_validator.py:310-311 | removing one anchored prefix only cuts the text's start, and leaves a text the pattern does not match unchanged |
| DialogValidator.RemovePrefixes | core/dialog_validator.py:310-311 | applying the patterns in order leaves a tail of the text |
| DialogValidator.RemovePrefixesKeepsUnprefixed | core/dialog_validator.py:310-311 | a text that starts with no speaker prefix goes through every pattern unchanged |
| DialogValidator.CleanReplica | core/dialog_validator.py:297-319 | specification of `_clean_replica`: prefixes removed, then surrounding whitespace, then one pair of surrounding quotes; CleanReplicaIsPiece and CleanReplicaKeepsPlainText state what it does |
| DialogValidator.CleanReplicaIsPiece | core/dialog_validator.py:297-319 | cleaning a replica only cuts text away at its ends: the cleaned replica occurs contiguously in the original |
| DialogValidator.CleanedSuffixIsPiece | core/dialog_validator.py:313-317 | stripping and unquoting a tail of a text leaves a piece of the text |
| DialogValidator.CleanReplicaKeepsPlainText | core/dialog_validator.py:297-319 | a replica without prefix, edge whitespace or surrounding quote pair is returned unchanged |
| DialogValidator.AllPresent | core/dialog_validator.py:137-157 | when every declared field is present, the present fields in schema order are the schema itself |
| DialogValidator.ValidateDialog | core/dialog_validator.py:82-157 | specification of `validate_dialog`: a non-empty dict with every declared field and a `dialog` list of acceptable replicas; ValidDialogFilterKeepsSchema and ValidDialogSanitizesWhole state what it guarantees |
| DialogValidator.ValidDialogFilterKeepsSchema | core/dialog_validator.py:55-157 | a dialog that passes `validate_dialog`, filtered to a schema naming each field once, comes out with exactly the schema's fields in schema order |
| DialogValidator.CleanAll | core/dialog_validator.py:290-291 | each replica is cleaned, in order, one output per input |
| DialogValidator.DropBlank | core/dialog_validator.py:292-293 | the kept texts are exactly the input's non-blank texts: each kept text is non-blank and from the input, and every non-blank input text is kept |
| DialogValidator.DropBlankAppend | core/dialog_validator.py:292-293 | blanks are dropped text by text in order: dropping from two lists joined is dropping from each and joining |
| DialogValidator.DropBlankKeepsNonBlank | core/dialog_validator.py:292-293 | a list with no blank text is kept whole |
| DialogValidator.SanitizeReplicas | core/dialog_validator.py:278-295 | no more replicas than given, none blank, and every replica whose cleaned form is not blank is returned in its cleaned form |
| DialogValidator.SanitizeOne | core/dialog_validator.py:288-295 | one replica sanitises to its cleaned form when that is not blank and to nothing otherwise |
| DialogValidator.SanitizeAppend | core/dialog_validator.py:288-295 | sanitising works replica by replica in order: two lists joined sanitise as each sanitised and joined |
| DialogValidator.SanitizedComeFromInput | core/dialog_validator.py:278-295 | every sanitised replica is the cleaned form of an input replica and occurs in it |
| DialogValidator.SanitizeKeepsNonBlank | core/dialog_validator.py:288-295 | when no replica cleans to blank, sanitising keeps them all, cleaned, in order |
| DialogValidator.Texts | core/dialog_validator.py:196-200 | the texts of a list of string replicas, one per replica |
| DialogValidator.ValidDialogSanitizesWhole | core/dialog_validator.py:186-218 | a dialog that passes validation loses no replica to sanitising: each is kept, cleaned, in order |
| DialogValidator.Similarity | core/dialog_validator.py:254-276 | the similarity of two texts lies in [0, 1] and is 1 only when their lower-cased word sets are equal |
| DialogValidator.Jaccard | core/dialog_validator.py:269-276 | the Jaccard ratio lies in [0, 1], is positive only when the sets share a word and is 1 only for equal sets; 0 when either set is empty |
| DialogValidator.StrictlyShared | core/dialog_validator.py:273-276 | two different word sets share fewer words than their union holds |
| DialogValidator.SharedWithinAll | core/dialog_validator.py:273-276 | the intersection is no larger than the union, and the union of a non-empty set is non-empty |
| DialogValidator.JaccardSymmetric | core/dialog_validator.py:266-276 | the Jaccard ratio does not depend on the order of the sets |
| DialogValidator.SimilaritySymmetric | core/dialog_validator.py:254-276 | similarity does not depend on the order of the texts |
| DialogValidator.JaccardOfIdentical | core/dialog_validator.py:273-276 | a non-empty word set is fully similar to itself |
| DialogValidator.SimilarPairs | core/dialog_validator.py:237-243 | the count of similar neighbours is at most the number of replicas (what it counts is stated by SimilarPairsCounts) |
| DialogValidator.PairFlags | core/dialog_validator.py:237-243 | one flag per neighbouring pair `(i, i + 1)`, set exactly when the two replicas are more than 0.8 similar |
| DialogValidator.SimilarPairsCounts | core/dialog_validator.py:237-243 | the loop's count is the number of neighbouring pairs whose similarity exceeds 0.8 |
| DialogValidator.ValidateReplicaAlternation | core/dialog_validator.py:220-252 | specification: fewer than four replicas pass, otherwise similar neighbours may be at most 30% of the replicas; DissimilarNeighboursPass and RepeatedReplicaFails decide both ways |
| DialogValidator.DissimilarNeighboursPass | core/dialog_validator.py:220-252 | with no neighbouring pair above 0.8 similarity, no pair is counted and the alternation check passes |
| DialogValidator.RepeatedPairs | core/dialog_validator.py:237-243 | in n copies of a replica with at least one word, all n-1 neighbouring pairs count as similar |
| DialogValidator.RepeatedReplicaFails | core/dialog_validator.py:220-252 | four or more copies of one replica fail the alternation check |
| Worker.BasicDataValidation | workers/worker_thread.py:267-291 | specification of `_basic_data_validation`: a non-empty dict, one schema field when the schema names any, and one value with content; BasicImpliesStructureAndPresence relates it to the validator |
| Worker.BasicImpliesStructureAndPresence | workers/worker_thread.py:267-291 | a record that passes the worker's basic check also passes the validator's structure and field-presence checks |
| Worker.EmptyValuesRejected | workers/worker_thread.py:293-301 | a dict whose values are all empty (None, false, zero, empty or whitespace-only) is rejected |
| Worker.GenerateSingleItem | workers/worker_thread.py:195-243 | an item is produced exactly when the API gave a truthy record that passes the basic check and has no `dialog` key (the worker's validator has no `sanitize_replicas`, so such a record raises and is dropped); the item carries the language code, temperature and timestamp and otherwise the response's fields |
| Worker.Record | workers/worker_thread.py:163-169 | a record is handed to the writer exactly when the item step produced one, and after filtering it holds only schema fields |
| Worker.WriteOne | workers/worker_thread.py:172 | a closed writer refuses the record and changes nothing; otherwise the writer's own step applies |
| Worker.Lines | workers/worker_thread.py:153-169 | the group produces one prospective line per configured language, each the filtered record of that language |
| Worker.WriteLines | workers/worker_thread.py:153-179 | handing the lines to the writer in order counts at most one success per line and keeps the primary file present |
| Worker.WriteLinesStep | workers/worker_thread.py:163-175 | handing over one more line extends the previous state by exactly that line's write, or by nothing when the language gave no record |
| Worker.AllWrittenIff | workers/worker_thread.py:181-182 | the success count reaches the number of languages exactly when every language's record was written successfully |
| Worker.ClosedWriterWritesNothing | workers/worker_thread.py:172-175 | with a closed writer a group writes nothing and counts no success |
| Worker.StopIndex | workers/worker_thread.py:153-155 | the group stops before the first language at which a stop is seen, and before none when no stop arrives |
| Worker.Step | workers/worker_thread.py:99-119 | a successful iteration adds one to the generated count and resets the consecutive failures; any other adds one to the error count and one to the consecutive failures |
| Worker.StepsSnoc | workers/worker_thread.py:92-126 | the counters after one more iteration are one more step from the counters before it |
| Worker.Iterations | workers/worker_thread.py:92 | the main loop never runs more iterations than are supplied |
| Worker.IterationsRespectGuard | workers/worker_thread.py:92 | every iteration that runs started with no stop requested and fewer than `max_errors` consecutive failures |
| Worker.IterationsEndForAReason | workers/worker_thread.py:92 | the loop ends early only because a stop was requested or the failure threshold was reached |
| Worker.GivesUpAfterMaxFailures | workers/worker_thread.py:92-106 | with no stop, failures in a row end the loop exactly when the consecutive count reaches `max_errors` |
| Worker.StepsCountEveryIteration | workers/worker_thread.py:99-119 | every iteration adds exactly one to either the generated count or the error count |
| Worker.StepsKeepErrorsAboveConsecutive | workers/worker_thread.py:99-119 | the consecutive failures never outnumber all failures |
| Worker.WorkerThread.constructor | workers/worker_thread.py:23-57 | a new worker has zero counters, no stop and is not working; the failure threshold is `max_errors`, 10 when absent |
| Worker.WorkerThread.WriteRecord | workers/worker_thread.py:172 | handing one line to the shared writer moves the writer exactly as its write step says |
| Worker.WorkerThread.WriteLanguages | workers/worker_thread.py:153-179 | the language loop ends at the first language where a stop is seen (or after the last), and leaves the writer and the success count exactly as writing the records of the languages before that point, in order, specifies |
| Worker.WorkerThread.GenerateSingleGroup | workers/worker_thread.py:138-193 | a group leaves the worker's counters alone; a stop seen before some language ends it with false and the stop flag set; otherwise it succeeds exactly when every language's record was written; the writer ends as writing the records up to the stop specifies |
| Worker.WorkerThread.RecordOutcome | workers/worker_thread.py:99-106 | the counters move by one step of the main loop and nothing else changes |
| Worker.WorkerThread.Run | workers/worker_thread.py:86-136 | the main loop runs exactly as many iterations as the specification `Iterations` gives, leaves the counters as those iterations' steps, reports each iteration's success to the statistics callback in order, keeps consecutive failures within all failures and ends not working |
| Worker.WorkerThread.RequestStop | workers/worker_thread.py:305-311 | a stop request sets the stop flag, clears the working flag and keeps the counters |
| Worker.WorkerThread.GetStats | workers/worker_thread.py:327-342 | the statistics report the worker's id, flags and counters, with liveness as supplied |
| Worker.StopIndexIs | workers/worker_thread.py:153-155 | the first stop is seen at i when none was seen earlier and one is seen at i, or the languages end there |
| Pool.Fresh | workers/thread_pool.py:77-83 | a newly built and started worker has the given id, is alive, not working, not stopped and has zero counters |
| Pool.Stopped | workers/worker_thread.py:305-311 | telling a worker to stop sets its stop flag and clears its working flag, nothing else |
| Pool.AliveCount | workers/thread_pool.py:289-290 | no more workers are alive than there are workers |
| Pool.WorkingCount | workers/thread_pool.py:199 | the active workers (alive and working) are among the alive ones |
| Pool.AliveCountBounds | workers/thread_pool.py:279-294 | no worker counts as alive exactly when none is alive, and all do exactly when all are |
| Pool.SuccessRate | workers/thread_pool.py:212-214 | the success rate is 0 before any group, between 0 and 100 when successes do not exceed the total, and 100 when every group succeeded |
| Pool.ThreadPoolManager.constructor | workers/thread_pool.py:19-45 | a new pool has no workers, is not running, has no shutdown request and zero counters |
| Pool.ThreadPoolManager.StartGeneration | workers/thread_pool.py:56-96 | starting succeeds exactly when the pool was not running, the thread count is present and positive and every worker starts; then it appends that many fresh workers numbered from 1 and marks the pool running; a running pool or a non-positive count returns false and changes nothing; a missing setting or a failing worker clears the worker list and returns false; the group counters never change |
| Pool.ThreadPoolManager.StopGeneration | workers/thread_pool.py:98-130 | stopping a pool that is not running returns true and changes nothing; otherwise every worker is told to stop, the pool is marked stopped with a shutdown request, the list is cleared and the result says whether all threads ended in time |
| Pool.ThreadPoolManager.UpdateStats | workers/thread_pool.py:173-189 | each reported group adds one to the total and one to either the successes or the failures, keeping total = successes + failures |
| Pool.ThreadPoolManager.GetStats | workers/thread_pool.py:191-220 | the statistics have total = successes + failures, no more active workers than workers, and a success rate between 0 and 100 that is 0 before any group |
| Pool.ThreadPoolManager.IsRunning | workers/thread_pool.py:222-229 | the pool counts as running only when its running flag is set and no shutdown was requested |
| Pool.ThreadPoolManager.RestartFailedWorkers | workers/thread_pool.py:240-262 | on a running pool each dead worker whose replacement starts is replaced in place by a fresh worker with the same id, others are kept; a pool that is not running is left alone; ids, flags and counters never change |
| Pool.ThreadPoolManager.MonitorWorkersHealth | workers/thread_pool.py:264-296 | the health report counts all workers, the alive ones and the working ones among them, alive + failed = total, and lists each worker's details in order |
| Config.FillDefaults | config/config_manager.py:240-248 | `setdefault` for each default keeps every present value, adds exactly the missing default keys and never duplicates a key |
| Config.FillDefaultsAddsMissing | config/config_manager.py:241-248 | a default whose key was missing is the value that key holds afterwards |
| Config.KeepsPresentTransitive | config/config_manager.py:235-253 | keeping the present values carries through successive normalisation steps |
| Config.FillSectionKeeps | config/config_manager.py:240-248 | a section step keeps every top-level value that was present, and inside a dict section every value it held |
| Config.NormalizeApiKeeps | config/config_manager.py:251-253 | the `api` step keeps every value that was present |
| Config.NormalizeKeepsPresent | config/config_manager.py:235-253 | `_normalize_config` never overwrites a present value, at the top level or inside a dict section, and leaves a dict |
| Config.Section | config/config_manager.py:257 | a section is found only in a dict that has that key |
| Config.Codes | config/config_manager.py:286 | the language codes, one per entry, when every entry has a string code |
| Config.Strings | config/config_manager.py:298 | the strings of a list that holds only strings, one per element |
| Config.SetSizeDetectsDuplicates | config/config_manager.py:286-287 | the set of codes is never larger than the list, and has the same size exactly when no code repeats |
| Config.Duplicates | config/config_manager.py:288 | the reported duplicates are exactly the codes that occur more than once |
| Config.DuplicatesReported | config/config_manager.py:286-295 | some code repeats exactly when the duplicate list is not empty |
| Config.NothingRepeatedNothingReported | config/config_manager.py:288 | codes that each occur once yield no duplicates |
| Config.OccursOnce | config/config_manager.py:286-287 | without duplicates every listed code occurs exactly once |
| Config.UnknownIn | config/config_manager.py:302-304 | the placeholder reported for a template names no word bank, and none is reported exactly when every placeholder names one |
| Config.FirstUnknown | config/config_manager.py:303-304 | the first placeholder without a word bank, none exactly when all have one |
| Config.TemplateIssue | config/config_manager.py:301-314 | the template error names a template index and one of its placeholders that has no word bank; none exactly when every placeholder of every template names a word bank |
| Config.SemanticValidation | config/config_manager.py:255-314 | specification of `_semantic_validation`: a configuration it cannot read crashes, otherwise the rules decide; CheckPassesIff states when they pass |
| Config.CheckPassesIff | config/config_manager.py:255-314 | the semantic rules pass exactly when the temperature and line ranges are ordered, the language codes are distinct and every template placeholder names a word bank |
| Config.DuplicateIssueNamesRepeats | config/config_manager.py:285-295 | a duplicate-code error lists every code that occurs more than once, and at least one |
| Config.LanguageName | config/config_manager.py:370-375 | a name is found exactly when some entry carries the code |
| Config.LanguageNameIsFirst | config/config_manager.py:372-374 | the name found belongs to an entry with that code |
| Config.LanguageCodes | config/config_manager.py:366-368 | the codes, in configuration order |
| Config.LanguageNameOfDistinct | config/config_manager.py:285-295 | with distinct codes the name found for an entry's code is that entry's name |
| Config.LoadOutcome | config/config_manager.py:178-215 | specification of `load_config`: missing file, empty file, bad JSON, schema failure, then normalisation and the semantic rules, in that order; LoadSucceedsIff states when it succeeds |
| Config.LoadSucceedsIff | config/config_manager.py:178-215 | a load succeeds exactly when the file exists, is not blank, decodes, satisfies the schema, normalises without raising and passes the semantic rules; a blank file is refused as empty |
| Config.ConfigManager.constructor | config/config_manager.py:171-174 | a new manager holds empty dicts and is not loaded |
| Config.ConfigManager.NormalizeConfig | config/config_manager.py:235-253 | normalising leaves the configuration and success flag that the specification `Normalized` gives and keeps the original |
| Config.ConfigManager.LoadConfig | config/config_manager.py:178-215 | loading returns the step-by-step outcome; the parsed file is kept as the original once it decodes, the normalised copy once the schema accepts it, and only a complete load marks the manager loaded |
| Config.ConfigManager.NormalizeAndCheck | config/config_manager.py:202-208 | after the schema check the configuration is the normalised original, and the manager is marked loaded exactly when normalisation and the semantic rules pass |
| Config.ConfigManager.ReloadConfig | config/config_manager.py:377-389 | reloading returns true exactly when `load_config` succeeds; the parsed file replaces `original` once it parses, the normalised configuration replaces `config` once the schema check passes, and the manager is loaded afterwards exactly when it was before or the reload succeeded |
| Config.ConfigManager.ValidateConfig | config/config_manager.py:316-332 | false when not loaded; otherwise true exactly when the semantic rules pass, with an exception other than a validation error escaping |
| Config.ConfigManager.GetItem | config/config_manager.py:396-400 | `config[key]` raises when not loaded or when the key is missing, and otherwise gives the key's value |
| Config.ConfigManager.Get | config/config_manager.py:402-406 | `get(key, default)` gives the default when not loaded or the key is missing, and otherwise the key's value |
| Config.SectionGetsDefault | config/config_manager.py:240-248 | after a section step every default of the section is applied: the default where the key was missing, the section's own value otherwise |
| Config.GenerationSectionFinal | config/config_manager.py:240-253 | the `generation` section after a finished normalisation is the one its own step produced |
| Config.OutputSectionFinal | config/config_manager.py:245-253 | the `output` section after a finished normalisation is the one its own step produced |
| Config.GenerationDefaultsFilled | config/config_manager.py:240-242 | after normalisation `generation` holds `request_delay` and `max_errors`: 0.5 and 10 where the file had none, the file's values otherwise |
| Config.OutputDefaultsFilled | config/config_manager.py:245-248 | after normalisation `output` holds `filename`, `max_file_size_mb` and `backup_count`: "dialogues.jsonl", 100 and 5 where the file had none, the file's values otherwise |
| Config.ApiStepApplies | config/config_manager.py:251-253 | the `api` step gives a dict without `base_url` the default URL and leaves anything else as it was |
| Config.ApiBaseUrlFilled | config/config_manager.py:250-253 | after normalisation the `api` section has its own `base_url` or the default one |
| Config.DefaultKeysDistinct | config/config_manager.py:241-248 | the defaults of each section have distinct keys |
| Config.Normalized | config/config_manager.py:235-253 | specification of `_normalize_config`: the generation and output sections, then the API section, each passing on what it got once an earlier step raised; NormalizedSteps and NormalizeKeepsPresent state its properties |
| Config.NormalizedSteps | config/config_manager.py:237-253 | a finished normalisation went through both section steps and the `api` step |
| Config.FillSectionOthers | config/config_manager.py:240-248 | a section step changes no other top-level key |
| Config.FillSectionFills | config/config_manager.py:240-248 | a finished section step leaves a dict under the section's name that holds every default key |
| Config.NormalizeApiOthers | config/config_manager.py:251-253 | the `api` step changes no other top-level key |
| Theme.FirstUnknown | core/theme_generator.py:142-145 | the placeholder found, if any, occurs in the list and names no bank; none is found exactly when every placeholder names a bank |
| Theme.ValidTemplate | core/theme_generator.py:130-147 | a template is valid exactly when every placeholder `re.findall` extracts from it names a word bank |
| Theme.FirstInvalidTemplate | core/theme_generator.py:45-52 | the ValueError names a placeholder of the first invalid template that no bank holds; none is raised exactly when every template is valid |
| Theme.ComponentsOkIff | core/theme_generator.py:34-57 | construction succeeds exactly when there is a template, there is a bank, every template is valid and no bank is empty |
| Theme.Draw | core/theme_generator.py:81 | `random.choice` returns an element of the list it draws from |
| Theme.FillFailsIff | core/theme_generator.py:87-90 | the substitution loop raises exactly when some placeholder names an empty bank |
| Theme.Chosen | core/theme_generator.py:81 | the template generation starts from is one of the templates |
| Theme.Theme | core/theme_generator.py:71-110 | specification of `generate_theme` with the draws given: no template gives the fallback theme, otherwise the drawn template filled from the banks; PlainTemplateIsTheme and FallbackWhenDrawFails state its properties |
| Theme.PlainTemplateIsTheme | core/theme_generator.py:84-105 | a chosen template without placeholders is returned unchanged |
| Theme.FallbackWhenDrawFails | core/theme_generator.py:107-110 | with no templates, or when the chosen template uses an empty bank, the result is the fallback theme |
| Theme.ValidComponentsNeverFail | core/theme_generator.py:34-57 | on components that passed the construction check, substitution never raises |
| Theme.StepReplacesFirstOccurrence | core/theme_generator.py:89-90 | one substitution step replaces the first `{name}` by a word of that bank and keeps the text around it |
| Theme.CombinationsPositive | core/theme_generator.py:223-227 | a template whose banks are all non-empty has at least one combination |
| Theme.CombinationsZero | core/theme_generator.py:223-227 | a placeholder with an empty bank makes a template's product zero |
| Theme.TotalCombinations | core/theme_generator.py:214-229 | specification of `_calculate_total_combinations`: the sum over templates of the product of bank sizes; TotalAppend and TotalAtLeastTemplates state its properties |
| Theme.TotalAppend | core/theme_generator.py:221-229 | appending a template adds exactly its own combinations to the total |
| Theme.TotalAtLeastTemplates | core/theme_generator.py:214-229 | with every bank non-empty the total is at least the number of templates |
| Theme.NewWords | core/theme_generator.py:189-190 | the words kept are, with their multiplicities, exactly the given words not already in the bank |
| Theme.BankSizes | core/theme_generator.py:121-128 | the statistics have exactly the bank names as keys, each mapped to its word count |
| Theme.ThemeGenerator.constructor | core/theme_generator.py:17-32 | a generator is built only from components that pass the construction check, and holds them |
| Theme.ThemeGenerator.GenerateTheme | core/theme_generator.py:71-110 | the generated theme is the substitution of the drawn template followed by the fallback-word pass, or the fallback theme when a draw raises |
| Theme.ThemeGenerator.IsValidTemplate | core/theme_generator.py:130-147 | validity against the current banks: every placeholder names a bank |
| Theme.ThemeGenerator.AddTemplate | core/theme_generator.py:149-170 | the template is appended, and true returned, exactly when it is valid; the banks are unchanged |
| Theme.ThemeGenerator.AddWordsToBank | core/theme_generator.py:172-199 | the bank (created when missing) keeps its words and gains the given words it lacked; nothing else changes |
| Theme.ThemeGenerator.WordBankStats | core/theme_generator.py:121-128 | each bank name is mapped to its current word count |
| Theme.AddedWordsAreNew | core/theme_generator.py:185-192 | after adding, the old bank is a prefix, every added word was given and was not in the bank, and every given word the bank lacked is now in it |
| Theme.AddingTwiceAddsOnce | core/theme_generator.py:188-192 | adding the same words a second time adds nothing |
| Prompt.Create | core/prompt_engine.py:17-78 | construction succeeds exactly when the template is not blank, the schema has an example, both bounds are given and 2 <= min <= max; the checks come in the source's order; the engine holds the encoded example, the fields and the bounds |
| Prompt.FormatLines | core/prompt_engine.py:121-147 | the format section has eight lines plus one when fields are declared: the marker first, the example third, then the check heading and the reply-count line |
| Prompt.FormatSectionShape | core/prompt_engine.py:121-147 | the joined section opens with the marker and a newline, and contains the example, the reply-count line and, when fields are declared, their comma-separated list |
| Prompt.BuildPrompt | core/prompt_engine.py:95-114 | specification of `build_prompt`: the substituted template, a blank line and the format section, or the fallback prompt on an exception; BuiltPromptEndsWithFormat states what the prompt carries |
| Prompt.BuiltPromptEndsWithFormat | core/prompt_engine.py:95-114 | a prompt built without an exception is the substituted template, a blank line and the format section, so it carries the marker and the example |
| Prompt.AddCustomInstructionsAsWritten | core/prompt_engine.py:233-242 | the splice as the source writes it: blank instructions leave the prompt unchanged, and the result is never longer than the intended splice |
| Prompt.AddCustomInstructions | core/prompt_engine.py:222-242 | blank instructions leave the prompt unchanged; otherwise the instruction block goes right before the first marker and the whole prompt is kept, or the instructions are appended when there is no marker |
| Prompt.NoMarkerBefore | core/prompt_engine.py:237-238 | no marker occurs before the first one, where the prompt is split |
| Prompt.InstructionsRoundTrip | core/prompt_engine.py:236-240 | removing the inserted block gives back the original prompt |
| Prompt.AsWrittenAgreesIffSingleMarker | core/prompt_engine.py:237-240 | the splice as written agrees with the intended one exactly when the marker occurs only once |
| Prompt.SecondMarkerIsDropped | core/prompt_engine.py:238-239 | on a prompt holding the marker twice the splice as written loses the second marker |
| Prompt.ValidatePromptLength | core/prompt_engine.py:180-198 | specification: the estimate `len // 4` is at most 3500; PromptLengthBound gives the exact character bound |
| Prompt.PromptLengthBound | core/prompt_engine.py:180-198 | the length check accepts exactly the prompts shorter than 14004 characters |
| Prompt.GetPromptStats | core/prompt_engine.py:200-220 | the token estimate is the character count divided by four, rounded down; the line count lies between 1 and length + 1; the format flag is set exactly when the marker occurs; the estimate agrees with the length check |
| Prompt.StatsOfBuiltPrompt | core/prompt_engine.py:200-220 | the statistics of a prompt built without an exception report both the format section and the example |
| Cleaner.Matches | scripts/dialog_cleaner.py:36-41 | `re.findall` of one pattern yields only characters of that pattern's class, and is empty exactly when the text has none |
| Cleaner.FirstMatch | scripts/dialog_cleaner.py:55-58 | the pattern found first really matches, and when none is found no pattern from the start position on matches |
| Cleaner.HasArtifacts | scripts/dialog_cleaner.py:45-58 | specification: some character of the text is an artifact character; HasArtifactsChar and HasArtifactsIff relate it to the scan |
| Cleaner.HasArtifactsChar | scripts/dialog_cleaner.py:45-58 | a text has artifacts exactly when one of its characters is CJK ideograph, hiragana, katakana or the replacement character |
| Cleaner.HasArtifactsIff | scripts/dialog_cleaner.py:55-58 | `has_artifacts` is true exactly when the pattern scan finds a first matching pattern |
| Cleaner.TableGet | scripts/dialog_cleaner.py:83 | `dict.get` on the language table: the default when the code is absent, otherwise the name paired with the code |
| Cleaner.LanguageLabelFallsBack | scripts/dialog_cleaner.py:72-83 | a code missing from the table stands for itself; `ru` and `ja` get their names |
| Cleaner.PromptBodyEnds | scripts/dialog_cleaner.py:85-104 | the text of the prompt literal starts and ends with a non-space character |
| Cleaner.CleaningPrompt | scripts/dialog_cleaner.py:85-105 | `strip()` removes exactly the leading and trailing line break of the literal |
| Cleaner.PromptQuotes | scripts/dialog_cleaner.py:85-105 | the prompt quotes the replica and names its language |
| Cleaner.RequestFor | scripts/dialog_cleaner.py:83-90 | building the prompt raises exactly when the language is a list or a dict; otherwise it is about this replica, and a string language is shown by its table name |
| Cleaner.CleanLine | scripts/dialog_cleaner.py:107-141 | a replica without artifacts is returned as it is; any other result is the replica itself or the string or list `cleaned_text` of a dict the API returned for this replica's request, so the result is always a string or a list |
| Cleaner.UnsliceableReplyKeepsText | scripts/dialog_cleaner.py:131-141 | a reply whose `cleaned_text` is null, a bool, a number or a dict makes the `[:30]` slice raise, and the replica is kept as it was |
| Cleaner.CleanAllFails | scripts/dialog_cleaner.py:228-229 | the replica loop raises exactly when some replica is not a string |
| Cleaner.CleanAllMeaning | scripts/dialog_cleaner.py:223-234 | on string replicas the loop yields a list of the same length, keeps every artifact-free replica, cleans every other one, and needs cleaning exactly when some replica has artifacts |
| Cleaner.CleanedOnlyWithArtifacts | scripts/dialog_cleaner.py:219-245 | a record changes only when it is a dict whose `dialog` list holds only strings and some replica with artifacts |
| Cleaner.CleanedRecord | scripts/dialog_cleaner.py:209-245 | specification of `clean_single_dialog`: a dict whose `dialog` is a list of strings gets the cleaned list and `cleaned: True` when some replica had artifacts, and every other record comes back as it was; CleanedRecordMarks and CleanedOnlyWithArtifacts state its properties |
| Cleaner.CleanedRecordMarks | scripts/dialog_cleaner.py:236-239 | such a record gets `cleaned: true` and a `dialog` list of the same length with artifact-free replicas untouched; every other key keeps its value |
| Cleaner.SilentApiKeepsReplicas | scripts/dialog_cleaner.py:131-141 | when the API never answers, every replica is kept as it was |
| Cleaner.Record.constructor | scripts/dialog_cleaner.py:209 | the record holds the decoded value it was built from |
| Cleaner.CleanSingleDialog | scripts/dialog_cleaner.py:209-245 | the record's value after the call is the cleaned record of its old value |
| Cleaner.CleanReplicas | scripts/dialog_cleaner.py:223-234 | the loop computes the replica list and the needs-cleaning flag of the specification function `CleanAll`, or fails on a non-string replica |
| Cleaner.CleanedOutputsInOrder | scripts/dialog_cleaner.py:183-200 | one output line per record, in order, each the encoding of the record after cleaning |
| Cleaner.ReadDialogs | scripts/dialog_cleaner.py:163-173 | the records read are the non-blank lines that decode, in file order |
| Cleaner.CleanDialogFile | scripts/dialog_cleaner.py:143-207 | succeeds exactly when the input exists and the batch size is not zero; the lines written are the cleaned records in order when the batch size is positive, and none otherwise |
| Cleaner.CleanBatch | scripts/dialog_cleaner.py:180-200 | one batch extends what was written by exactly the batch's records, cleaned and in order |
| Cleaner.SkippedLinesAddNothing | scripts/dialog_cleaner.py:167-173 | blank or undecodable lines contribute no record |
| Cleaner.ScanReplicasRaises | scripts/dialog_cleaner.py:284-288 | the report's replica loop raises exactly when some replica is not a string |
| Cleaner.ScanRaisesOnward | scripts/dialog_cleaner.py:271-319 | once a line raises, the whole analysis returns the error |
| Cleaner.ScanReplica | scripts/dialog_cleaner.py:285-307 | the pattern loop with its `break` computes the specification step `ReplicaStep`: the replica counted, and only the first matching pattern recorded |
| Cleaner.ScanDialogReplicas | scripts/dialog_cleaner.py:282-291 | the replica loop computes the specification function's statistics and artifact flag, or fails on a non-string replica |
| Cleaner.ScanRecord | scripts/dialog_cleaner.py:278-310 | one decoded record is counted and its replicas scanned as the specification function `RecordStep` says; a record with artifacts bumps the dialog counter |
| Cleaner.AnalyzeFileArtifacts | scripts/dialog_cleaner.py:247-319 | the report is the specification function's scan of the file, `File not found` when it is missing, and the error when a line raises |
| Cleaner.NewSampleOk | scripts/dialog_cleaner.py:302-306 | a sample holds at most 100 characters of the replica and one to three artifact characters |
| Cleaner.AddHitSane | scripts/dialog_cleaner.py:290-306 | recording a hit keeps the report's bounds |
| Cleaner.ReplicaStepSane | scripts/dialog_cleaner.py:284-307 | one replica keeps the bounds and leaves the dialog counters alone |
| Cleaner.ScanReplicasSane | scripts/dialog_cleaner.py:284-307 | the replica loop keeps the bounds and leaves the dialog counters alone |
| Cleaner.RecordStepSane | scripts/dialog_cleaner.py:278-310 | one record keeps the bounds and adds exactly one dialog |
| Cleaner.ScanSane | scripts/dialog_cleaner.py:271-313 | a whole scan keeps the bounds and counts exactly the records the cleanup reads |
| Cleaner.Analysis | scripts/dialog_cleaner.py:247-319 | specification of `analyze_file_artifacts`: a missing file and a raising scan give their errors, otherwise the report; AnalysisBounds bounds its counts |
| Cleaner.AnalysisBounds | scripts/dialog_cleaner.py:247-315 | a report never has more artifact lines than lines or artifact dialogs than dialogs; the type counters sum to the artifact lines; at most five samples, each well formed |
| Cleaner.OneOutputPerCountedRecord | scripts/dialog_cleaner.py:175-200 | the cleanup writes exactly one line per record the analysis counts |
| Text.Strip | core/validator.py:253 | `str.strip()`: empty exactly for blank text; otherwise starts and ends with a non-space character, and is a piece of the input |
| Text.StripQuotePair | core/validator.py:256 | the quote-pair substitution either keeps the text or drops exactly its first and last character |
| Text.QuotePairIsPiece | core/validator.py:253-256 | what the substitution leaves is a piece of the text, at offset 1 when a pair was removed |
| Text.Lower | core/dialog_validator.py:266-267 | lowering maps each character on its own, through `LowerChar`, which lowers ASCII, Latin-1 and Cyrillic capitals (other scripts are listed under Left out) |
| Text.WordsAreWords | core/dialog_validator.py:266-267 | every piece of `split()` is non-empty and holds no whitespace |
| Text.Find | core/theme_generator.py:90 | the index found is an occurrence with none before it; none is found exactly when there is no occurrence |
| Text.ReplaceFirst | core/theme_generator.py:90 | `replace(pat, w, 1)` leaves text without the pattern unchanged and otherwise swaps the first occurrence for `w`, keeping the text around it |
| Text.CountChar | core/prompt_engine.py:210 | the count is the number of occurrences of the character in the text |
| Text.JoinContainsPart | core/prompt_engine.py:147 | `"\n".join(parts)` contains each part |
| Text.NatToString | core/prompt_engine.py:141 | a count is shown as a non-empty string of decimal digits |
| Text.NatToStringSpells | core/prompt_engine.py:141 | the digits spell the number: their decimal value is the number, with no leading zero except for 0 itself |
| Text.PlaceholdersSound | core/theme_generator.py:59-69 | each name `re.findall(r'\{(\w+)\}')` extracts is non-empty, made of word characters, and occurs braced in the template |
| Text.PlaceholdersComplete | core/theme_generator.py:59-69 | every non-empty run of word characters that occurs braced in the template is among the extracted names |
| Text.PlaceholdersAppend | core/theme_generator.py:59-69 | names come in the order of the text: a template split where no name can straddle the cut extracts the names of the first part, then those of the second |
| Text.NoBraceNoPlaceholders | config/config_manager.py:302 | text without an opening brace has no placeholders |
| JsonValue.Lookup | scripts/dialog_cleaner.py:220 | `k in d` and `d[k]`: a value is found exactly when the key is present, and it is that key's value |
| JsonValue.Put | scripts/dialog_cleaner.py:237-239 | `d[k] = v`: the key then holds `v`, other keys are unchanged, an existing key keeps its place and a new key goes last |
| JsonValue.SetDefault | config/config_manager.py:240-248 | `setdefault` keeps a present key's value, adds a missing key with the default, and touches nothing else |

## Left out

- Threads, locks and sleeps: `threading.Thread`, `RLock`/`Lock`, `time.sleep` and the timed polling in `_wait_for_workers_stop`. Every method is treated as atomic. Whether a thread is alive, and whether all stopped in time, are parameters.
- Logging, the `main.py` orchestration (signal handlers, monitoring loop), and the argparse entry point of `scripts/dialog_cleaner.py`: no logic of the core depends on them.
- OS file primitives and durability: `flock`, `O_EXCL`, `fsync`, `rename`/`unlink` and `stat`. Files are line sequences and sizes count characters plus one per line break, not UTF-8 bytes.
- `Storage.FailedWriteCountsError`: the model's failed rotation (`RotationFails`) changes no file. That matches a failure of the size read in the log line, before anything is renamed. A rotation that raises later leaves partial results the model does not describe: the oldest backup already deleted, backups partly shifted, or the primary moved to backup 1 and not recreated. The contract says nothing about the files in those cases.
- `Storage.Writer.Valid`: the writer's invariant bounds the written count by the primary's terminated lines plus one, not by its lines. A start-up count that takes in an unterminated last line is one above the terminated lines, and the next record joined onto that line keeps it there (`Storage.JoinedLineCountedTwice`).
- The Windows branch of the file lock: `storage/thread_safe_writer.py` imports `fcntl` at module level, so only the POSIX path can run.
- `Storage.Writer.constructor`: `main.py` builds the writer with the default size limit and backup count. The model keeps both as parameters.
- The timestamp in quarantine names, `get_stats` uptime and all rounding of floats: the clock and rounding are outside the model.
- The OpenAI client: `_initialize_client`, the actual HTTP call, `test_connection` and `cleanup`.
  - An attempt is an abstract outcome.
  - Error classification works over an error-kind enum. The OpenAI client raises none of the `requests` exceptions it tests, so in practice every failure is unknown.
- `ApiClient.EstimateCost` and `ApiClient.Client.UsageReport`: the values are reals before `round(..., 4)` and `round(..., 2)`.
- `json.loads`/`json.dumps`, `str()` and `string.Template.safe_substitute` are parameters (`decode`, `encode`, `render`, `substituted`). No JSON round-trip is claimed.
- The JSON-schema check of the configuration is a parameter (`schemaOk`) because it is done by a foreign library. Reading the file is a parameter (`content`).
- `Config`: only the getters, language lookups, `validate_config`, `__getitem__` and `get` are modelled.
  - The section getters (`get_api_config` and the others) are plain lookups and are left out.
  - So is the module-level singleton `get_config_manager`.
  - The model's `Extract` gives `Crashes` for any configuration the JSON schema would reject: bounds that are not numbers, codes that are not strings, a missing section. It does so without the source's rule order, because it makes every lookup before the first rule. The schema keeps such configurations from reaching the rules.
- `Worker`: everything the API, the theme generator, the prompt engine, the clock and `random.uniform` produce is a parameter of the item step. The statistics callback is recorded as the sequence of reported outcomes.
- `Worker.GenerateSingleItem`: the temperature is stored unrounded; the source rounds it to four places.
- `Pool.ThreadPoolManager.StartGeneration`: when a worker fails to start, threads that already started keep running while the list is cleared. The model records only the cleared list.
- `Pool`: `get_active_worker_count` is the `active_workers` entry of `get_stats` and is not modelled separately. Uptime is left out (clock).
- `Validator`: `_validate_field_type` accepts every type a JSON value can have, so it is left out of the check. `validate_json_syntax` (a `json.loads` wrapper) and `get_validator_stats` are left out.
- `DialogValidator`: the `get_validation_report`/`get_validator_stats` reporting and `validate_json_syntax` (a `json.loads` wrapper) are left out.
  - `re.IGNORECASE` is approximated by lower-casing ASCII, Latin-1 and Cyrillic letters.
  - The alternation check is modelled although `validate_dialog` never calls it.
- `Text.Lower`: `str.lower()` is modelled for ASCII, Latin-1 (U+00C0 to U+00DE, without ×) and Cyrillic (U+0400 to U+042F) capitals only. Other scripts (Greek, Latin Extended, Armenian and the rest) are left as they are, and lowerings that change the length, such as U+0130 becoming two code points, are not modelled. The word sets and so the similarity of texts in other scripts can differ from the source's.
- `Text.IsWordChar`: `\w` is modelled as ASCII letters, digits and `_`, Latin-1 and Latin Extended letters (U+00C0 to U+024F, without × and ÷), and Cyrillic letters (U+0400 to U+0481 and U+048A to U+04FF). The Latin-1 signs that Python also counts (ª, µ, º and the superscript digits) are left out. A placeholder name with letters of other scripts (Greek, CJK, Arabic and the rest) or with combining marks is not recognised.
- `Theme`: `random.choice` is the draw reduced modulo the list's length.
  - `get_available_templates_count` and `get_stats` are left out; `get_stats` only combines `WordBankStats` and `TotalCombinations`.
  - A construction error for an empty bank does not carry the bank's name.
- `Theme.ThemeGenerator.AddWordsToBank`: it can create an empty bank, as the source does. The constructor's non-empty-bank invariant is not claimed after it.
- `Prompt`: the fields are given as a list of strings. `create_system_prompt` (a constant) and `get_engine_stats` are left out.
  - The fallback example of `_prepare_output_example` is left out: `json.dumps` of a parsed JSON value cannot raise.
- `Cleaner`: the API reply is a function of the request (theme, replica, language name) rather than of the prompt string. An exception from the client is a reply of None.
  - Failures to open the output file and Unicode decoding errors of the input are left out (I/O).
  - `cleaned_count` and the log lines are left out.
  - The artifact types are the enum `Kind` rather than the strings `chinese`, `japanese_hiragana`, `japanese_katakana` and `replacement_char`.
- `ApiClient.NoContentCountsTwice`: this is the source's behaviour, modelled as written. A reply with no content is counted as both a success and a failure, and then retried.

## Findings

| source | as written | input that shows it | evidently intended | confidence | as-written member | corrected member |
|---|---|---|---|---|---|---|
| core/prompt_engine.py:237-240 | `add_custom_instructions` rebuilds the prompt from only the first two pieces of `split("ФОРМАТ ОТВЕТА:")`, so everything from a second marker on is lost | the prompt `ФОРМАТ ОТВЕТА:ФОРМАТ ОТВЕТА:` with instructions `x` loses the second marker (`Prompt.SecondMarkerIsDropped`); the two agree exactly when the marker occurs once (`Prompt.AsWrittenAgreesIffSingleMarker`) | insert the instruction block before the first marker and keep the rest of the prompt (`Prompt.InstructionsRoundTrip`) | not executed | Prompt.AddCustomInstructionsAsWritten | Prompt.AddCustomInstructions |
