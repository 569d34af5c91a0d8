# DBShield: a verified model of its small state machines

DBShield is a database operations platform. Most of it is plumbing around Django, but a handful of
self-contained algorithms decide whether a user can query a table, whether a settings file survives an
edit, whether a background job leaks its slot, or whether a model's reply is read as it was meant. This
project models those algorithms and proves what they keep, for every input and over every run.

What changes state step by step in the program is a class or a loop here, proved equal to a function or a
step relation; the properties are lemmas about that function or about all runs of that relation. The
original's text is `seq<char>` and its integers are unbounded, as in Python.

| module | what it models |
|---|---|
| `JsonLexer`, `JsonRepair`, `QuoteRepair`, `RepairChain` | the two character scanners that repair a model's JSON, alone and one after the other, against an RFC 8259 lexer |
| `ReviewBatch` | aligning a batch of AI reviews with the statements they are about |
| `TextSearch`, `EnvFile`, `EnvNames` | the editor of the managed block in `.env`, as a lens on the whole file, and the variables the file assigns |
| `AuthBlock`, `AuthAgreement`, `AuthReload` | the block's text, the environment it must agree with, and the reload transaction |
| `ConfigCache` | the configuration cache over its table |
| `OptimizePool` | the asynchronous optimisation pool: slots, jobs, deduplication, the stale rule |
| `AgentLoop` | the tool-calling loop of the optimisation agent |
| `SqlDump`, `DecimalText` | the SQL dump writer and a reader of standard SQL literals |
| `LoginLockout` | the login lockout |
| `QueryPrivileges` | the in-memory privilege check and the per-table queries it replaced |
| `Watchdog` | the timeout watchdog of background tasks on Windows |
| `BigIntSafe` | rendering integers for JavaScript readers |

## Where the code and its promises part

Each of these is a lemma with an exact condition or a concrete input, but for the first remark on the
privilege check.

- The quote repair promises valid JSON for mixed quotes. It keeps a text's string boundaries if and only if
  no single-quoted string holds a bare double quote (`QuoteRepair.RepairKeepsBoundariesIff`). Up to the first
  lexical error it keeps the tokens if and only if there is no such double quote and, in no string that is
  read to its end, an escaped single quote, an escape JSON does not have
  (`QuoteRepair.RepairPreservesTokensIff`, `QuoteRepair.BareDoubleQuoteLosesString`). A second pass changes
  the text again exactly when a single quote of a double-quoted string has an even number of unescaped double
  quotes and delimiting single quotes before it (`QuoteRepair.RepairIsIdempotentIff`, `QuoteRepair.IdempotenceFailsOnMixedQuotes`).
- A reply that needs both repairs has its control characters escaped first, by a scanner that knows double
  quotes only: a raw line break in a single-quoted string is passed by, and refused after the second repair.
  When both together keep the tokens is `RepairChain.BothRepairsPreserveTokensIff`, with the input
  `RepairChain.RawBreakInSingleQuotesIsRefused`.
- The editor promises to overwrite only its own segment. Reading back what was saved, and saving again over
  it, work exactly in files with no marker at all or with a begin marker in front of the first end marker,
  for values without the end marker (`AuthAgreement.SavedBlockReadsBackIff`,
  `AuthAgreement.StrayEndHidesBlock`).
- A failed reload promises to restore everything. For the providers `oidc` and `common`, whose keys include
  one without a variable, `_apply_to_environ` raises outside the rollback, and the changed environment and
  file stay (`AuthBlock.ApplyRaisesIff`, `AuthReload.OidcLeavesFlagOn`). In the covered region the rollback
  is exact if and only if re-reading `.env` adds no variable the process did not have
  (`AuthReload.RollbackIsExactIff`). Read line by line, that is: the process held every variable of the
  original file, and every untracked one that the block's own lines or the text behind the end marker assign
  (`AuthReload.RereadRollbackIff`, and `AuthReload.ReadFileRollbackIff` whatever the attempts read). A value
  that spans lines assigns more variables, and text on the end marker's line becomes a line of its own
  (`AuthReload.SpanningValueStays`, `AuthReload.TextBehindMarkerStays`). A missing `.env` comes back as an
  empty one.
- The pool documents its states as pending, running, then success or failed. A task saved as successful
  becomes failed if what follows the save raises (`OptimizePool.SavedSuccessCanBeOverwritten`), and a task
  failed by the stale rule can run again (`OptimizePool.StaleFailureCanRevive`). The status of a finished task
  can change in some continuation if and only if its job is still queued or executing
  (`OptimizePool.FinishedCanChangeIff`).
- The row query of the privilege check orders by `id`, a field the table does not have (its key is
  `privilege_id`). As written that query raises, and the check answers with an error for MySQL and raises for
  other engines. The theorems are about the intended order, by key, which is what the per-table queries use.
  Fast and slow form part for a table without a name about which a table privilege decides
  (`QueryPrivileges.FastRefinesSlowIff`, `QueryPrivileges.NamelessTableDiffers`).
- `get` of the configuration object may disagree with what a fresh object would answer; over a run it never
  does if and only if every `set` passes a settable value and every `replace` writes uniform values and keeps
  uniform rows
  (`ConfigCache.RunAnswersAsFreshIff`).
- An infinite score, which Python's JSON reader accepts, makes the review parser raise instead of scoring 0,
  in one order of the items and not in another (`ReviewBatch.InfiniteScoreCanRaise`,
  `ReviewBatch.OrderMattersUnlessClaimsAgree`).
- A lockout threshold above 127 never locks anyone (`LoginLockout.LockCanTriggerIff`).
- A timed task entered inside another disarms the outer one's watchdog (`Watchdog.InnerTaskDisarmsOuter`), and
  a task without a timeout entered inside a timed one can be hit in its place
  (`Watchdog.InjectionHitsItsOwnerIff`, `Watchdog.UntimedTaskCanBeHit`).

## Model

| member | source | states |
|---|---|---|
| JsonRepair.EscapeControlCharacters | common/utils/ai_gateway.py:638-663 | the scanner's loop emits the repaired text, character by character |
| JsonRepair.RepairPreservesTokens | common/utils/ai_gateway.py:638-663 | for every text, strict lexing of the output gives token for token, and in verdict, what lexing the input with raw newline, return and tab allowed gives |
| JsonRepair.RepairIsIdentityIff | common/utils/ai_gateway.py:655-662 | a text is unchanged exactly when no string in it holds a raw control character |
| JsonRepair.RepairKeepsStrictText | common/utils/ai_gateway.py:632-667 | text the strict lexer accepts is left alone |
| JsonRepair.RepairIsIdempotent | common/utils/ai_gateway.py:638-663 | a second repair changes nothing |
| JsonRepair.RawStringSurvivesRepair | common/utils/ai_gateway.py:638-663 | a string written with raw line breaks and tabs is read back whole from the repaired text |
| QuoteRepair.SingleToDoubleQuote | common/utils/ai_gateway.py:709-749 | the scanner's loop emits the repaired text; its two in-string flags are never both set |
| QuoteRepair.RepairKeepsBoundariesIff | common/utils/ai_gateway.py:709-749 | output read with double quotes has the string boundaries of the input read with both kinds, exactly when no single-quoted string holds a bare double quote |
| QuoteRepair.RepairChangesExactlyTheDelimiters | common/utils/ai_gateway.py:709-749 | length is kept, and the changed characters are exactly the single quotes that open or close a string |
| QuoteRepair.RepairPreservesTokensIff | common/utils/ai_gateway.py:709-749 | strict tokens and verdict of the output equal those a both-quotes lexer, which knows the escaped single quote, finds in the input, exactly when that lexer meets neither a bare double quote in a single-quoted string nor an escaped single quote in a string it reads to the end |
| QuoteRepair.GoodTextSurvivesIff | common/utils/ai_gateway.py:709-749 | of the texts that lexer accepts, exactly those without such quotes keep their tokens |
| QuoteRepair.BareDoubleQuoteLosesString | common/utils/ai_gateway.py:733-739 | a three-character text that is one string to that lexer and, repaired, is refused |
| RepairChain.BothRepairsPreserveTokensIff | common/utils/ai_gateway.py:638-705 | with the layers in between idle, strict tokens and verdict after both scanners equal those a lexer with both tolerances finds in the input, exactly when that lexer meets no bare double quote in a single-quoted string and, in strings it reads to the end, no escaped single quote and no raw line break or tab in a single-quoted one |
| RepairChain.RawBreakInSingleQuotesIsRefused | common/utils/ai_gateway.py:655-662 | a line break in a single-quoted string, which the first scanner passes by and strict lexing refuses after both |
| QuoteRepair.RepairIsIdempotentIff | common/utils/ai_gateway.py:709-749 | for any text, a second pass changes nothing exactly when no single quote of a double-quoted string stands after an even number of unescaped double quotes and delimiting single quotes |
| QuoteRepair.RepairIsIdempotent | common/utils/ai_gateway.py:709-749 | in particular where no single-quoted string holds a bare double quote |
| QuoteRepair.IdempotenceFailsOnMixedQuotes | common/utils/ai_gateway.py:733-746 | a concrete text on which two passes differ from one |
| ReviewBatch.ParseReviewBatch | common/utils/ai_gateway.py:574-594 | nothing when no list is found; an exception only with a first item for some index whose score is infinite; otherwise a list of the expected length whose entry i is the first object whose field `index` is i, normalised, and empty without one |
| ReviewBatch.AlignedByIndex | common/utils/ai_gateway.py:582-593 | the same, with no infinite score among those first items, for every list and count |
| ReviewBatch.UnwrapMeaning | common/utils/ai_gateway.py:575-581 | the list is the reply itself, or the first of the four named fields that is a list |
| ReviewBatch.NormalizeScore | common/utils/ai_gateway.py:525-529 | every score handed out is within 0 to 100 |
| ReviewBatch.ScoreMeaning | common/utils/ai_gateway.py:525-529 | the score of each kind of value: clamped integers, fractions cut, booleans, numeric strings, 0 for all else |
| ReviewBatch.LevelsMeaning | common/utils/ai_gateway.py:524-533 | level and lock risk take exactly three words, read in lower case from their fields, and unknown and none otherwise |
| ReviewBatch.TextsMeaning | common/utils/ai_gateway.py:534-553 | summary, suggestion and row estimate from their fields, the summary of at most 200 characters and never empty |
| ReviewBatch.OtherKindsMeaning | common/utils/ai_gateway.py:524-553 | values that are no strings are written out, and false ones dropped where the code drops them |
| ReviewBatch.OscMeaning | common/utils/ai_gateway.py:536-541 | the online-change flag for each kind of value |
| ReviewBatch.AlignedReviewsAreBounded | common/utils/ai_gateway.py:522-555 | every aligned review has a score in range and a non-empty summary, and comes from the first item claiming its slot |
| ReviewBatch.AlignmentIgnoresOrder | common/utils/ai_gateway.py:582-594 | the whole outcome, exception or list, is then untouched by order, repetition, malformed and out-of-range items |
| ReviewBatch.OrderMattersUnlessClaimsAgree | common/utils/ai_gateway.py:582-594 | the outcome, exception included, is the same for every reordering if and only if some slot is claimed by items with infinite scores alone, or no claiming item has one and items claiming one slot agree on it |
| ReviewBatch.InfiniteScoreCanRaise | common/utils/ai_gateway.py:525-529 | two items with one index and equal reviews, aligned in one order and raising in the other |
| TextSearch.FindFirst | common/auth_settings_reload.py:147-150 | a left-to-right search finds the first occurrence or reports that there is none |
| TextSearch.FindAcrossSeam | common/auth_settings_reload.py:35-36 | a marker with its first character nowhere else in it cannot straddle a seam, so searching a joined text is searching its parts in order |
| EnvFile.RewriteText | common/auth_settings_reload.py:147-157 | the rewrite of a file's content, by first begin and first end marker or by appending after a blank line |
| EnvFile.ExtractAfterRewriteIff | common/auth_settings_reload.py:136-162 | a framed block is read back from the rewritten file exactly when the file is orderly and the block holds no end marker before its last line |
| EnvFile.SecondRewriteWinsIff | common/auth_settings_reload.py:136-162 | rewriting again, with any text, equals that second rewrite alone, exactly under the same two conditions on the file and the first block |
| EnvFile.UserTextSurvives | common/auth_settings_reload.py:147-157 | in an orderly file, text before the block is kept verbatim and text after it up to leading newlines; the file stays orderly |
| EnvFile.AppendedMeaning | common/auth_settings_reload.py:152-157 | without a block the file is kept, and the block comes after a blank line |
| EnvFile.StrippedMeaning | common/auth_settings_reload.py:151 | only line breaks are taken from the front of the text behind the block, and all of them |
| EnvFile.WritingBackIsIdleIff | common/auth_settings_reload.py:147-151 | writing back the block found changes nothing exactly when one newline and no more follows it |
| EnvFile.HeadIsFreeIff | common/auth_settings_reload.py:147-157 | in an orderly file, and in no other, no marker is left in front of the block |
| EnvFile.MarkersFit | common/auth_settings_reload.py:35-36 | the two markers can overlap neither themselves nor each other |
| AuthBlock.BuildManagedBlock | common/auth_settings_reload.py:87-108 | the loops that print the block write the comment lines, four flags and the provider's non-empty parameters |
| AuthBlock.ApplyRaisesIff | common/auth_settings_reload.py:111-133 | applying a configuration raises for exactly two provider values, oidc and common |
| AuthBlock.FullyMappedIff | common/auth_settings_reload.py:42-66 | exactly these two providers have a key without a variable |
| AuthBlock.ApplyTouchesTrackedOnly | common/auth_settings_reload.py:111-133 | whether or not it raises, applying changes none but the tracked variables |
| AuthAgreement.BlockParsesToPairsIff | common/auth_settings_reload.py:87-108 | reading the block line by line, split at the first equals sign, gives the assignments it was printed from exactly when no written value spans lines |
| AuthAgreement.BlockAgreesIff | common/auth_settings_reload.py:87-133 | for every provider, what the block says about the flags and parameters is what the environment is left with, absent lines matching removed variables, if and only if no written value spans lines |
| AuthAgreement.OneFlagOn | common/auth_settings_reload.py:77-84 | the enable flag of the configured provider reads true, and no other |
| AuthAgreement.FlagsMeaning | common/auth_settings_reload.py:121-123 | the same by the variables' names and values |
| AuthAgreement.VariablesOfKeys | common/auth_settings_reload.py:42-66 | the variable of every key, by name |
| AuthAgreement.KeysOfProviders | common/config.py:120-150 | the keys of every provider |
| AuthAgreement.AppliedMeaning | common/auth_settings_reload.py:124-133 | after applying, the variable of each mapped key of the provider holds the configured text, or the word for a flag, and is gone without a value |
| AuthAgreement.BlockMeaning | common/auth_settings_reload.py:87-108 | the block's lines: markers, flags, and a line for every written value with its variable |
| AuthAgreement.TrackedMeaning | common/auth_settings_reload.py:226-243 | the snapshot records the variables of all keys and the four flags, and no others |
| AuthAgreement.BlockIsWellFormedIff | common/auth_settings_reload.py:87-108 | the printed block is framed by the markers, and its last line is its only end marker exactly when no written value contains one |
| AuthAgreement.SavedBlockReadsBackIff | common/auth_settings_reload.py:136-162 | for any file and configurations: the saved block is read back, and a later save leaves nothing of it, exactly when the file is orderly and no written value holds the end marker |
| AuthAgreement.StrayEndHidesBlock | common/auth_settings_reload.py:147-151 | a file that holds only an end marker, from which no saved block is read back |
| AuthReload.Reloader.RewriteEnv | common/auth_settings_reload.py:136-162 | the file holds the rewritten content; the content before is returned, empty for a missing file |
| AuthReload.Reloader.RestoreEnv | common/auth_settings_reload.py:165-169 | the file holds the given content, and exists |
| AuthReload.Reloader.SnapshotEnviron | common/auth_settings_reload.py:226-243 | each tracked variable with its value or the mark that it was absent |
| AuthReload.Reloader.RestoreEnviron | common/auth_settings_reload.py:246-254 | tracked variables as they were at the snapshot, all others as they are now |
| AuthReload.Reloader.ApplyToEnviron | common/auth_settings_reload.py:111-133 | the environment and the exception that the specification of applying gives |
| AuthReload.Reloader.ReloadOrRollBack | common/auth_settings_reload.py:279-297 | on success nothing is put back; on failure environment and file are, before the settings run once more |
| AuthReload.Reloader.ReloadAuthConfig | common/auth_settings_reload.py:257-316 | for each outcome the file and the environment at the end; the lock is as before, and a second reload changes nothing |
| AuthReload.LoadedMeaning | dbshield/settings.py:19 | reading the file adds missing variables with the file's values and changes none |
| AuthReload.RestoredMeaning | common/auth_settings_reload.py:246-254 | restoring puts each recorded variable back, absent ones included, and leaves the others |
| AuthReload.RestoreIsExactIff | common/auth_settings_reload.py:226-254 | restoring named variables is exact exactly when the reads in between add no variable that stays |
| AuthReload.RollbackIsExactIff | common/auth_settings_reload.py:279-297 | a rolled-back reload restores every variable, tracked or not, exactly when re-reading the file adds none the process lacked |
| AuthReload.RollbackIsExact | common/auth_settings_reload.py:279-297 | when re-executing the settings reads nothing new, the rollback is exact |
| EnvNames.WrittenNamesIff | common/auth_settings_reload.py:147-157 | for any file and configuration, the rewritten file assigns no untracked variable beyond those of the original exactly when neither the block's own lines nor the text behind the end marker do |
| AuthReload.ReadFileRollbackIff | common/auth_settings_reload.py:279-297 | for any file and configuration, read line by line by either attempt or not: the rollback is exact exactly when the second attempt found only variables the process held, and the first only those and tracked ones, up to the begin marker, in the block's lines and behind the end marker |
| AuthReload.RereadRollbackIff | common/auth_settings_reload.py:279-297 | when the second attempt reads the file: exactly when the process held every variable of the original file and, should the first have read the rewritten one, every untracked one in the block's lines and behind the end marker |
| AuthReload.TidyFileRollbackIff | common/auth_settings_reload.py:279-297 | when the second attempt reads the file, for one-line values where the end marker ends its line: exactly when the process held every variable of the original file |
| AuthReload.SpanningValueStays | common/auth_settings_reload.py:99-105 | an empty file and a value that spans two lines: the second line's variable is left after the rollback |
| AuthReload.TextBehindMarkerStays | common/auth_settings_reload.py:150-151 | a file with text on the end marker's line: what it assigns is left after the rollback, for any configuration |
| AuthReload.OidcLeavesFlagOn | common/auth_settings_reload.py:276-314 | for provider oidc the flag stays on although the reload reports failure |
| ConfigCache.SysConfig.GetAllConfig | common/config.py:19-33 | the cache is the whole table, with the four spellings turned into booleans |
| ConfigCache.SysConfig.Get | common/config.py:35-50 | the answer, and that a lookup changes no later answer for any key and default; one step of the runs below |
| ConfigCache.SysConfig.Set | common/config.py:60-70 | row and cache entry of one key, nothing else; one step of the runs below |
| ConfigCache.SysConfig.SaveAll | common/config.py:88-96 | the transaction writes all submitted rows, or none when two share a key |
| ConfigCache.SysConfig.Replace | common/config.py:72-106 | all submitted rows or none; it fails exactly on unreadable input or a duplicate key, and the cache is reloaded either way; one step of the runs below |
| ConfigCache.FreshMeaning | common/config.py:35-58 | what a new object answers for a stored text: the default for none or a blank one, a boolean for true and false in any case, else the text |
| ConfigCache.LoadedMeaning | common/config.py:22-30 | loading turns exactly four spellings into booleans, and keeps every other text |
| ConfigCache.SetIsReadBack | common/config.py:60-69 | a new object answers a settable value as it was set |
| ConfigCache.StripMeaning | common/config.py:45 | stripping takes white space from both ends and nothing else; blank is nothing but white space |
| ConfigCache.LoadedCacheIsCoherentIff | common/config.py:19-58 | after loading, every answer equals a fresh object's exactly when all rows spell booleans in the four ways |
| ConfigCache.SetKeepsCoherenceIff | common/config.py:60-70 | set keeps that agreement exactly for booleans and non-blank strings spelling no boolean |
| ConfigCache.WrittenKeepsOtherKeys | common/config.py:92-96 | replace leaves every key it does not submit as it was |
| ConfigCache.WrittenHoldsSubmitted | common/config.py:88-96 | every submitted key holds the stripped value submitted with it |
| ConfigCache.StepKeepsCoherenceIff | common/config.py:35-106 | one call keeps the agreement exactly for a settable value, or for a replace that writes uniform values and keeps uniform rows |
| ConfigCache.StepKeepsCoherence | common/config.py:35-106 | get, set and replace, well used, keep the agreement |
| ConfigCache.RunAnswersAsFreshIff | common/config.py:35-106 | over any sequence of calls on one object, all answers are those of a fresh object if and only if every set and every replace meets that condition on the rows and values before the call |
| ConfigCache.RunAnswersAsFresh | common/config.py:35-106 | in particular over well-used calls, from uniform rows if the sequence has a replace |
| ConfigCache.ShoutedTrueIsIncoherent | common/config.py:52-70 | set with the string TRUE always breaks the agreement |
| OptimizePool.StepKeepsInv | sql_api/api_slowquery.py:512-736 | every step keeps the slot count, the match of jobs and statuses, and one unmarked active task per key |
| OptimizePool.RunKeepsInv | sql_api/api_slowquery.py:512-736 | so does every run |
| OptimizePool.SlotsAreConserved | sql_api/api_slowquery.py:517-523 | in every reachable state free slots, queued and executing jobs add up to workers plus backlog, for any sizes |
| OptimizePool.EachSlotReleasedOnce | sql_api/api_slowquery.py:712-734 | between restarts a slot becomes free in exactly the steps in which a job ceases to hold one: that job alone, the one the step ends; otherwise all holders keep theirs |
| OptimizePool.SingleTaskPerKey | sql_api/api_slowquery.py:678-702 | of two active tasks of one key where one was never marked stale, the other was marked and is older: at most one was never marked, and it is the newest |
| OptimizePool.ReusedTaskWasNeverMarked | sql_api/api_slowquery.py:687-691 | a request is answered with a running task only if that was never marked stale, and then no row changes |
| OptimizePool.CreatedRow | sql_api/api_slowquery.py:693-734 | when a submission creates a row, and that it is pending with its job queued last and a slot taken, or failed with nothing queued and no slot taken |
| OptimizePool.CreatedIsActiveIffQueued | sql_api/api_slowquery.py:693-734 | the created row is active if and only if its job is queued |
| OptimizePool.StepTouchesOneRow | sql_api/api_slowquery.py:527-607 | a step changes one row at most, to the status and finishing time it stands for |
| OptimizePool.ActiveTasksHaveJobs | sql_api/api_slowquery.py:546-736 | in every run without restarts, dying jobs and unreadable starts, a pending task is queued and a running one is executing |
| OptimizePool.FoundIsReusableIff | sql_api/api_slowquery.py:678-691 | a request joins the task found when it is fresh, and otherwise there is none to join |
| OptimizePool.StaleMeaning | sql_api/api_slowquery.py:533-536 | stale is pending or running and created more than ten minutes ago |
| OptimizePool.RowsPersist | sql_api/api_slowquery.py:693-702 | rows, their keys and creation times are permanent |
| OptimizePool.LeavingSuccess | sql_api/api_slowquery.py:577-607 | a task leaves success exactly when its own job raises after saving it |
| OptimizePool.LeavingFailure | sql_api/api_slowquery.py:553-582 | a task leaves failure exactly when its own job starts or saves its success, and only after a stale mark |
| OptimizePool.MarkedOnlyWhenStale | sql_api/api_slowquery.py:527-543 | the stale rule fires only on an active task more than ten minutes old |
| OptimizePool.SettledIsFinal | sql_api/api_slowquery.py:546-607 | in every run a finished task without a job never changes again |
| OptimizePool.FinishedCanChangeIff | sql_api/api_slowquery.py:546-607 | in every reachable state of a pool with a worker, the status of a finished task can change in some continuation if and only if its job is queued or executing |
| OptimizePool.OrdinaryFailureIsFinal | sql_api/api_slowquery.py:602-607 | a failed task never marked stale never changes again |
| OptimizePool.StaleFailureCanRevive | sql_api/api_slowquery.py:546-559 | a run from a fresh pool in which a task failed by the stale rule runs again |
| OptimizePool.SavedSuccessCanBeOverwritten | sql_api/api_slowquery.py:577-607 | a run from a fresh pool in which a success becomes a failure |
| OptimizePool.Pool.constructor | sql_api/api_slowquery_v2.py:795-803 | the pool starts with all slots free |
| OptimizePool.Pool.FindActive | sql_api/api_slowquery.py:678-686 | the newest pending or running task of a key, or none |
| OptimizePool.Pool.MarkStaleFailed | sql_api/api_slowquery.py:527-543 | the row is failed exactly when it is stale |
| OptimizePool.Pool.CreateTask | sql_api/api_slowquery_v2.py:1049-1083 | the row, the slot and the queue after each way a submission can go: a failed row when no slot is free or the job cannot be handed over |
| OptimizePool.Pool.SubmitTask | sql_api/api_slowquery.py:640-736 | the submission is one step and keeps the invariant; for each reply the row created or joined, the queue and the slots |
| OptimizePool.Pool.StartJob | sql_api/api_slowquery.py:546-559 | the job's start is one step and keeps the invariant |
| OptimizePool.Pool.SaveJobSuccess | sql_api/api_slowquery.py:572-582 | saving the success is one step and keeps the invariant |
| OptimizePool.Pool.EndJob | sql_api/api_slowquery.py:602-607 | the job's end is one step, keeps the invariant and frees one slot without overflow |
| OptimizePool.Pool.PollStatus | sql_api/api_slowquery.py:744-776 | a poll is one step, keeps the invariant and answers with the status after it |
| AgentLoop.WellFormedIff | sql_api/ai_optimizer.py:349-390 | the automaton of the model's interface accepts exactly the conversations in which every assistant message is followed at once by one bounded reply per call, same ids and order, and no reply stands elsewhere |
| AgentLoop.ExecuteCall | sql_api/ai_optimizer.py:366-390 | the tool gets what JSON reading makes of the written arguments, or an empty object; the step records tool, arguments, success and the time between two clock readings; the reply carries the call's id and the first 6000 characters |
| AgentLoop.CarryOut | sql_api/ai_optimizer.py:365-390 | the loop over an answer's calls appends one reply and one step per call, in order, each step timed by its own two clock readings |
| AgentLoop.AnswerCalls | sql_api/ai_optimizer.py:349-390 | carrying out an answer's calls takes one acceptable conversation, with steps, calls and replies in one-to-one correspondence, to another |
| AgentLoop.Gather | sql_api/ai_optimizer.py:338-390 | at most eight rounds, each begun before the deadline on an acceptable conversation, and how they may end |
| AgentLoop.Run | sql_api/ai_optimizer.py:304-404 | at most nine requests, each continuing the conversation and acceptable, all but the last with tools, those at most eight and within 240 seconds; the report is the text of the last answer; steps correspond to replies one to one |
| AgentLoop.EndedMeaning | sql_api/ai_optimizer.py:338-404 | these bounds and the report, from how a run may end |
| AgentLoop.AskedToConverge | sql_api/ai_optimizer.py:392-404 | a request without tools shows the conversation so far and the instruction to report now |
| AgentLoop.AfterMeaning | sql_api/ai_optimizer.py:349-390 | what an answer with calls adds to the conversation: its message, with its text if any, and the turn of replies |
| AgentLoop.TurnMeaning | sql_api/ai_optimizer.py:365-390 | reply j of a turn has the id of call j and the first 6000 characters of what its tool said |
| AgentLoop.ConversationGrows | sql_api/ai_optimizer.py:338-402 | every request shows the model strictly more than the one before |
| AgentLoop.Clip | sql_api/ai_optimizer.py:388 | a reply's text is the longest prefix allowed |
| SqlDump.SaveSql | sql/offlinedownload.py:495-515 | the loop over rows writes the dump of the whole result |
| SqlDump.HeaderListsColumns | sql/offlinedownload.py:498-501 | the header lists the columns in their order, as the values of a row are listed, and is empty without columns |
| SqlDump.ColumnsAreRead | sql/offlinedownload.py:498-501 | a reader of values reads the column names of the header in their order |
| SqlDump.PrintedMeaning | sql/offlinedownload.py:505-511 | what each kind of value is written as, with every quote doubled |
| SqlDump.SmallDump | sql/offlinedownload.py:503-515 | a line is the header, the values in order and the end, and lines follow one another in row order |
| SqlDump.LiteralIsRead | sql/offlinedownload.py:503-514 | a printed string, integer or null is read back as itself, whatever follows it in a row |
| SqlDump.RowIsRead | sql/offlinedownload.py:496-515 | a written line is read back as its row, and what follows is left over |
| SqlDump.DumpIsRead | sql/offlinedownload.py:486-515 | reading a dump with standard SQL literals recovers every row, whatever the strings contain |
| SqlDump.DumpIsInjective | sql/offlinedownload.py:486-515 | results that print alike denote the same rows |
| SqlDump.DumpOfRead | sql/offlinedownload.py:486-515 | a text the reader accepts is exactly what printing its rows writes |
| SqlDump.BackslashReaderAgreesIff | sql/offlinedownload.py:506 | a reader that honours backslashes gets a printed string back exactly when it holds none |
| SqlDump.BackslashDumpIsReadIff | sql/offlinedownload.py:486-515 | such a reader recovers the rows of a whole dump exactly when no string or date holds a backslash |
| DecimalText.ParseIntOfIntText | sql/offlinedownload.py:510 | an integer is read back from its decimal text |
| DecimalText.DigitsMeaning | sql/offlinedownload.py:510 | a digit more at the right of a decimal text is ten times the number and that digit |
| LoginLockout.User.Save | sql/models.py:77-80 | every save clamps the counter to 0..127 |
| LoginLockout.User.Authenticate | common/auth.py:79-108 | exactly when an attempt is refused; a success sets the counter to 0, a failure adds one, from 0 after an expired lock, and notes the time |
| LoginLockout.FailuresAreSpaced | common/auth.py:79-108 | without a success, a failure and the threshold-th one after it are at least a lock time apart |
| LoginLockout.FailuresPerWindow | common/auth.py:79-108 | so any half-open window of one lock time sees at most threshold failed challenges |
| LoginLockout.FailureRate | common/auth.py:79-108 | and any span T at most threshold * (T / lock time + 1) |
| LoginLockout.RefusedAttemptsChangeNothing | common/auth.py:84-95 | refused attempts neither extend the lock nor count |
| LoginLockout.RefusalIsEarned | common/auth.py:51-107 | from a clean account, in any run: a refused attempt has at least threshold failed challenges since the last success |
| LoginLockout.SuccessStartsAfresh | common/auth.py:51-55 | none of the threshold attempts after a success is refused |
| LoginLockout.ExpiredLockStartsAfresh | common/auth.py:96-99 | nor any of the threshold attempts from the one that finds a lock expired |
| LoginLockout.FailuresAroundASuccess | common/auth.py:51-107 | a run of seven attempts with the outcome of each |
| LoginLockout.LockFollowsThreshold | common/auth.py:84-107 | after threshold failures in a row the account is locked for the whole lock time and no longer |
| LoginLockout.LockCanTriggerIff | sql/models.py:77-80 | for any policy, some run is refused exactly when the threshold is at most 127 and the lock time is positive |
| LoginLockout.NeverLockedAbove | sql/models.py:77-80 | above 127 no attempt of any run is refused |
| QueryPrivileges.LoadRows | sql/query_privileges.py:40-53 | the valid rows of one user and instance, in the intended order by key |
| QueryPrivileges.LoadedRowsMeaning | sql/query_privileges.py:46-53 | which rows are loaded, by user, instance, expiry and deletion |
| QueryPrivileges.MatchDbMeaning | sql/query_privileges.py:56-63 | the limit is that of the row with the least key among the asker's valid database rows for that name or all, 0 without one, and the administrator's for a superuser |
| QueryPrivileges.MatchTableMeaning | sql/query_privileges.py:66-77 | likewise among the table rows for that database and table |
| QueryPrivileges.MatchDbRefines | sql/query_privileges.py:56-63 | the in-memory database match answers what the database query answers |
| QueryPrivileges.MatchTableRefines | sql/query_privileges.py:66-77 | likewise for the table match |
| QueryPrivileges.VerdictsAgreeIff | sql/query_privileges.py:131-146 | for one table, fast and slow verdict agree exactly unless it has no name and a table privilege decides |
| QueryPrivileges.FastRefinesSlowIff | sql/query_privileges.py:537-610 | over any tables, one table state and one time, the fast check gives every verdict and limit the per-table queries give, if and only if no table lacks a name while a table privilege decides about it |
| QueryPrivileges.FastRefinesSlow | sql/query_privileges.py:124-148 | so for tables with names the whole check ends alike in both forms |
| QueryPrivileges.CheckTables | sql/query_privileges.py:124-148 | the loop computes the fold of the per-table verdicts over the loaded rows |
| QueryPrivileges.CheckMeaning | sql/query_privileges.py:124-148 | it denies exactly when some table is uncovered, and otherwise grants the least of the non-zero request and all per-table limits |
| QueryPrivileges.DeniedIffUncovered | sql/query_privileges.py:124-148 | in terms of the rows: access is denied exactly when some table has neither a database row nor a row of its own whose limit decides and is not 0 |
| QueryPrivileges.DbDeniedIffUncovered | sql/query_privileges.py:157-181 | likewise for the check by database, which names a database without such a row |
| QueryPrivileges.GrantedLimitIsLeast | sql/query_privileges.py:138-147 | the limit granted is at most every deciding limit and the request, and is one of them |
| QueryPrivileges.OtherDatabaseIsDenied | sql/query_privileges.py:56-63 | a privilege on one database grants that one and no other |
| QueryPrivileges.OrderDoesNotMatter | sql/query_privileges.py:126-147 | neither the order of the tables nor repeating some changes a grant or its limit |
| QueryPrivileges.CheckDatabases | sql/query_privileges.py:157-186 | the two loops answer what the check by database is specified to |
| QueryPrivileges.DbOutcomeMeaning | sql/query_privileges.py:157-186 | it denies exactly when some database has no privilege, naming one such, and otherwise grants the least of the non-zero request and all database limits |
| QueryPrivileges.DatabaseGrantIsLeast | sql/query_privileges.py:182-186 | that limit is the least of the non-zero request and all database limits |
| QueryPrivileges.LoadedAfterAppend | sql/query_privileges.py:46-53 | a valid row with a larger key is loaded behind the others |
| QueryPrivileges.GrantingNeverRevokes | sql/query_privileges.py:124-148 | by table, such a row never turns a grant into a denial and never raises the limit of a query already granted |
| QueryPrivileges.GrantingKeepsDbOutcome | sql/query_privileges.py:172-186 | by database, it leaves a grant and its limit as they are |
| QueryPrivileges.AddedRowNeverRevokes | sql/query_privileges.py:40-77 | for the privilege table before and after the row is added, in both forms of the check |
| QueryPrivileges.NamelessTableDiffers | sql/query_privileges.py:596-610 | a table without a name granted in memory, for which the per-table form raises |
| QueryPrivileges.SmallerKeyCanRevoke | sql/models.py:577-612 | with a smaller key, a zero-limit row can revoke |
| Watchdog.StepKeepsInv | common/utils/django_q_win_patch.py:64-107 | every step keeps each thread's entry on its innermost timed task and every watchdog in step with its task and with time |
| Watchdog.RunKeepsInv | common/utils/django_q_win_patch.py:64-107 | so does every run |
| Watchdog.RegisteredThroughout | common/utils/django_q_win_patch.py:84-107 | a task registered now has been registered and running in every state since it was entered |
| Watchdog.FinishedLeavesNoEntry | common/utils/django_q_win_patch.py:100-107 | leaving a task removes its entry and touches no other thread's |
| Watchdog.InjectionsAreOwn | common/utils/django_q_win_patch.py:64-72 | in every run each injection goes to the thread of the task that started the watchdog, not before its timeout, once per task, never for a task without one |
| Watchdog.InjectionHitsARunningTask | common/utils/django_q_win_patch.py:65-71 | its owner is running at that moment, and later entries of the thread have no timeout |
| Watchdog.InjectionHitsItsOwnerIff | common/utils/django_q_win_patch.py:65-71 | the thread's innermost task is the owner exactly when it has a timeout |
| Watchdog.UntimedTaskCanBeHit | common/utils/django_q_win_patch.py:64-87 | a run in which a task without a timeout, entered inside a timed one, is hit in its place |
| Watchdog.FinishedIsNeverTouched | common/utils/django_q_win_patch.py:66-67 | once a task has left, no continuation of the run injects or kills on its behalf |
| Watchdog.KilledOnlyForAStuckTask | common/utils/django_q_win_patch.py:73-79 | the process ends only for a task registered and running in every state since its entry, after its injection, and five seconds past its timeout |
| Watchdog.FifthPollKillsIff | common/utils/django_q_win_patch.py:74-79 | a step ends the process exactly when it is a fifth poll that finds the task registered |
| Watchdog.StuckTaskIsKilledInTime | common/utils/django_q_win_patch.py:64-79 | a run: a timeout of ten seconds, the exception at ten, a poll each second, the end of the process at fifteen |
| Watchdog.RegistryMeaning | common/utils/django_q_win_patch.py:82-107 | what entering and leaving do to the registry, thread by thread |
| Watchdog.RegisteredIsWatched | common/utils/django_q_win_patch.py:64-97 | no watchdog gives up on a registered task with a valid timeout |
| Watchdog.InnerTaskDisarmsOuter | common/utils/django_q_win_patch.py:85-87 | a timed task entered inside another leaves the outer one unwatched |
| Watchdog.UnregisteredIsLeftAlone | common/utils/django_q_win_patch.py:66-78 | a watchdog whose task is unregistered ends without touching anything |
| Watchdog.Worker.EnterHandler | common/utils/django_q_win_patch.py:82-97 | entering is one step, keeps the invariant, registers exactly the timed tasks |
| Watchdog.Worker.ExitHandler | common/utils/django_q_win_patch.py:100-107 | leaving is one step, keeps the invariant and leaves no entry; of the tasks, only this one changes, and it is no longer running |
| Watchdog.Worker.StartDog | common/utils/django_q_win_patch.py:64-65 | a negative sleep ends the watchdog, any other is slept |
| Watchdog.Worker.WakeDog | common/utils/django_q_win_patch.py:65-72 | it injects exactly when the task is still registered |
| Watchdog.Worker.PollDog | common/utils/django_q_win_patch.py:74-79 | the fifth poll kills exactly when the task is still registered |
| BigIntSafe.ThresholdIsExact | sql_api/renderers.py:8-10 | the threshold is exactly the largest bound under which no two integers are read as the same double |
| BigIntSafe.AroundTheLimit | sql_api/renderers.py:8-10 | the doubles of the integers around 2 to the power 53 |
| BigIntSafe.RenderedMeaning | sql_api/renderers.py:13-26 | exactly the integers beyond the bound become strings; keys, order and all other values are kept |
| BigIntSafe.RenderedIsReadUnchanged | sql_api/renderers.py:13-26 | every rendered tree is read exactly as sent |
| BigIntSafe.ReaderRecoversIff | sql_api/renderers.py:13-26 | turning spelled-out integers back recovers the whole tree, exactly when no string of the original spells one |
| BigIntSafe.RenderedAsMeantIff | sql_api/renderers.py:19-20 | a tree is rendered as it is, up to tuples, exactly when all its integers are safe |
| BigIntSafe.UnrenderedIsReadIff | sql_api/renderers.py:8-10 | without the conversion a tree is read as meant only if every integer is a double |
| BigIntSafe.BigIntSafeIsIdempotent | sql_api/renderers.py:13-26 | a second pass changes nothing |

## Left out

- Views, serializers, permissions of the web framework, the ORM's query building, notification senders, storage backends and database engines: input and output around the modelled steps.
- `json.loads` itself, the code-fence and trailing-comma layers built on regular expressions, and emoji stripping: the scanners are compared with a lexer of RFC 8259, and the text functions `lower`, `strip` and emoji stripping are parameters of the review parser.
- The lexer does not join surrogate pairs: a `\u` escape is one unit.
- Text-mode line-ending conversion, encoding errors and failures of reading or writing `.env`; values with a NUL character, which the environment refuses.
- What re-executing the settings module does besides reading `.env`: each of the two attempts either succeeds or not, and may or may not have read the file, and the reader of the file is a parameter.
- AuthAgreement.BlockParsesToPairsIff: the line reader is a plain one, split at the first equals sign; quoting and interpolation rules of the environment library are not part of this model.
- Configuration values that are neither strings nor booleans, database errors inside `get_all_config`, and a second writer to the table.
- Atomicity: one database save, one submission and one look into a shared dictionary are single steps. In the program, finding a running task and creating a new one (`sql_api/api_slowquery.py:678-693`), checking a token and injecting (`common/utils/django_q_win_patch.py:66-69`), and reading a task and saving its stale mark (`sql_api/api_slowquery.py:744-760` with 527-543), are two each. A success saved between the last two is overwritten by the mark; `OptimizePool.LeavingSuccess` and what rests on it rely on the poll being one step.
- RepairChain.BothRepairsPreserveTokensIff: the trailing-comma and full-width punctuation layers between the two scanners are taken to leave the text as it is.
- The contents of the report cache: whether a submission hits it is an input of the step. The diagnosis pool of `sql_api/api_slowquery_v2.py` shares the slot handling, not the deduplication.
- OptimizePool.Pool.SubmitTask: request validation, table-name extraction and the fields of a row other than key, status and times are not modelled.
- Times are integers or reals that never run backwards; sleeps last at least as long as asked, and a watchdog's poll follows its sleep without a bound.
- The model, the tools and JSON reading of tool arguments are arbitrary functions in `AgentLoop`; elapsed times are not rounded to a tenth of a second, a request's start is the clock reading that admitted it, and the wording of the prompts is not modelled.
- SqlDump.DumpIsRead: values other than strings, dates, integers and nulls (decimals, floats, bytes) are read back as their printed token when that holds no delimiter; the others are outside the lemma.
- LoginLockout.User.Authenticate: accounts that do not exist, errors of the account lookup, the first-login set-up, and two attempts on one account at the same time.
- QueryPrivileges.LoadRows: rows are ordered by the key; that the query as written names a field the table lacks, and raises, is not carried into the checks built on it.
- The shortcuts of `query_priv_check` for administrators and for explain statements, the parsing of the statement into tables, and the database's own collation of names.
- `Watchdog`: a handler object that is entered twice, threads that are not left in nested order, and the interpreter's delivery of the exception after it was injected.
- `BigIntSafe`: Python refuses to print integers of more than 4300 digits; floats, dates and the second renderer's byte handling are opaque values.
