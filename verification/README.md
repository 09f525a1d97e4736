# Digital Garden study desk: verified model of its core rules

This project is a Dafny model of the deterministic core of a Tauri desktop study app. The app has a Rust backend (`src-tauri/src/lib.rs`) and a React front end. The model states and proves what the core promises.

The backend parts covered are:
- the LAN gateway's static-asset fallback;
- the workspace-relative path sanitiser;
- the clock and date lexers, including the days-since-epoch calendar walk;
- focus-tag clean-up and the per-tag aggregation loop;
- the markdown plan importer and its duration inference;
- the daily-log frontmatter writer and reader;
- focus template and run validation, with the error-to-HTTP-status mapping;
- the "publish only after a successful write" ordering of the gateway handlers;
- the single runtime slot of `toggle_local_server`.

The front-end parts covered are:
- the knowledge-tree algebra of the notes page;
- the task conversions and the browser-storage fallback of `TaskService`;
- the local markdown plan parser;
- the video frontmatter and timestamp helpers;
- the tag merge, recent-preset list and formatters of the tasks page;
- the attendance, streak and task toggle of the dashboard;
- the selection, BV-id and bookmark rules of the resources page;
- the preview truncation of the markdown helpers;
- the action matching of the sync hook.

Clock reads, random ids, database outages, JSON parsing, regular-expression chains and Unicode character classes are parameters of the functions that need them. There is one module per file. `Wrappers`, `Text` and `Numbers` hold the shared option/result types, trimming, splitting, joining and digit strings.

Code that updates state in place is modelled imperatively:
- the gateway's database and event log (`LanGateway.LanState`);
- the server slot (`LocalServer.ServerSlot`);
- the browser-storage task list (`TaskService.LocalTasks`);
- the in-place duration inference on an array (`PlanImport.InferImportDurations`).

The parsing loops are methods proved equal to recursive specification functions. Those functions carry the lemmas.

## Model

| member | source | states |
|---|---|---|
| EmbeddedAssets.BlankPathIsIndex | src-tauri/src/lib.rs:351-355 | a request path that is empty or made only of slashes names `index.html` |
| EmbeddedAssets.NormalizedSegmentsAreClean | src-tauri/src/lib.rs:356-360 | any other path normalises to "" or to `/`-joined segments none of which is empty, `.` or `..` |
| EmbeddedAssets.NormalizeIdempotent | src-tauri/src/lib.rs:351-361 | normalising a normalised path changes nothing |
| EmbeddedAssets.IndexDocumentFixed | src-tauri/src/lib.rs:351-361 | `index.html` normalises to itself |
| EmbeddedAssets.JoinedSegmentsFixed | src-tauri/src/lib.rs:356-360 | a `/`-join of clean segments is a fixed point of normalisation |
| EmbeddedAssets.AssetResponse | src-tauri/src/lib.rs:363-386 | a hit gives 200 with the asset and a guessed type; a miss gives 200 with `index.html` as HTML when it is embedded; 404 exactly when both are absent |
| EmbeddedAssets.FallbackNeverNotFound | src-tauri/src/lib.rs:388-391 | with `index.html` embedded, every unmatched path is answered 200, and a missing asset is answered with the index bytes |
| EmbeddedAssets.RootServesIndex | src-tauri/src/lib.rs:388-391 | `/` serves the index document |
| RelativePath.BackslashToSlash | src-tauri/src/lib.rs:3482 | every backslash becomes `/`, every other character stays, the length is kept |
| RelativePath.SanitizedProperties | src-tauri/src/lib.rs:3481-3498 | blank input gives the empty path; the result is an error exactly when the prepared path has a `..`, a root or a drive prefix, and the error names the input; accepted segments are normal and hold no separator |
| RelativePath.SanitizeRelativePath | src-tauri/src/lib.rs:3481-3498 | the component loop returns exactly the specified result |
| RelativePath.NormalComponents | src-tauri/src/lib.rs:3488-3496 | the loop refuses exactly when some component is `..`, a root or a prefix, and otherwise collects the normal names in order |
| RelativePath.SegmentComponentsParent | src-tauri/src/lib.rs:3488-3496 | a parent component appears exactly when some segment is `..` |
| RelativePath.ComponentsAccept | src-tauri/src/lib.rs:3488-3497 | when every component is a name or `.`, the path is safe and the pushed names are its normal segments |
| ClockDate.ParseClockMinutes | src-tauri/src/lib.rs:3152-3163 | an accepted clock is a minute of the day, below 1440 |
| ClockDate.ClockParts | src-tauri/src/lib.rs:3152-3163 | an accepted clock has exactly two fields that parse as `i32`, minutes below 60, and the value is hours × 60 + minutes |
| ClockDate.ParseFields | src-tauri/src/lib.rs:3152-3163 | conversely, two fields that parse to an hour 0-23 and a minute 0-59 are accepted as hh × 60 + mm |
| ClockDate.ClockRoundTrip | src-tauri/src/lib.rs:3152-3163 | every minute of the day written `hh:mm` parses back to itself |
| ClockDate.FirstIsoDate | src-tauri/src/lib.rs:3220-3244 | the scan finds the leftmost `DDDD-DD-DD` window from a position, or reports that there is none |
| ClockDate.IsoDate | src-tauri/src/lib.rs:3220-3244 | a found date has the date shape; nothing is found exactly when no window of the string has it |
| ClockDate.ExtractIsoDate | src-tauri/src/lib.rs:3220-3244 | the index loop returns the specified first window |
| ClockDate.WholeWindow | src-tauri/src/lib.rs:3220-3244 | a string that is itself a date window extracts to itself |
| ClockDate.MonthDays | src-tauri/src/lib.rs:3265-3269 | twelve month lengths, each 28 to 31 |
| ClockDate.MonthsFillYear | src-tauri/src/lib.rs:3265-3269 | the month lengths of a year add up to its 365 or 366 days under the leap rule |
| ClockDate.CivilUnique | src-tauri/src/lib.rs:3246-3279 | two valid dates with the same day count are the same date |
| ClockDate.CivilFromDays | src-tauri/src/lib.rs:3253-3277 | the year and month walk ends on a valid date whose day count is the input |
| ClockDate.ChronoToday | src-tauri/src/lib.rs:3246-3279 | the formatted date is that of the unique valid calendar date with the given day count |
| ClockDate.FormattedDateIsIso | src-tauri/src/lib.rs:3278 | a formatted date is a `YYYY-MM-DD` window that the date extractor returns whole |
| FocusTags.ParseFocusTags | src-tauri/src/lib.rs:660-678 | the clean-up loop returns the specified list |
| FocusTags.FocusTagsClean | src-tauri/src/lib.rs:660-678 | the result is never empty, has no duplicates, and every tag is trimmed and non-empty |
| FocusTags.KeptTagsMembers | src-tauri/src/lib.rs:662-673 | a tag is kept exactly when it is the non-empty trim of some input tag |
| FocusTags.KeptTagsPrefix | src-tauri/src/lib.rs:662-673 | tags kept from a prefix stay a prefix of the result, which keeps first-occurrence order |
| FocusTags.FocusTagsFallback | src-tauri/src/lib.rs:675-677 | input with no usable tag gives exactly `["未分类"]` |
| FocusTags.NormalizeFocusDimension | src-tauri/src/lib.rs:624-630 | the dimension is one of `template`, `timer_type`, `tag`, and `tag` when none is given |
| FocusTags.NormalizeDimensionIdempotent | src-tauri/src/lib.rs:624-630 | normalising a normalised dimension changes nothing |
| FocusTags.AggregateTags | src-tauri/src/lib.rs:1051-1063 | the aggregation loop over the runs builds the specified per-tag totals |
| FocusTags.AggregateRow | src-tauri/src/lib.rs:1052-1062 | one loop turn: a run under one minute leaves the totals unchanged; otherwise the run's whole minutes are added to its tags |
| FocusTags.AddRunInPlace | src-tauri/src/lib.rs:1058-1062 | the inner loop adds one run's minutes to every tag it carries |
| FocusTags.TotalsWellCounted | src-tauri/src/lib.rs:1051-1063 | every total has at least one run and at least one minute per run |
| FocusTags.TotalsMembers | src-tauri/src/lib.rs:1051-1063 | a tag has a total exactly when some counted run carries it |
| FocusApi.TemplateProblem | src-tauri/src/lib.rs:1254-1259 | a template is refused with 400 exactly when its name is blank or its duration is not positive, with the name message first |
| FocusApi.WithDefaults | src-tauri/src/lib.rs:1264-1269 | a blank timer type becomes `pomodoro` and blank tags become `[]`; nothing else changes |
| FocusApi.NewTemplate | src-tauri/src/lib.rs:1250-1276 | creation fails with 400 exactly on the validation rules; a created template keeps its name, duration, linked task, colour and archived flag, has a blank timer type replaced by `pomodoro` and blank tags by `[]`, the given id or the generated one when blank, the given creation time or `now` when blank, and `now` as update time |
| FocusApi.UpdatedTemplate | src-tauri/src/lib.rs:1286-1309 | an update is validated like a creation, takes the path id and `now` as update time, replaces a blank timer type by `pomodoro` and blank tags by `[]`, keeps the other given fields, and takes `now` for a blank creation time |
| FocusApi.NewTemplateIdempotent | src-tauri/src/lib.rs:1261-1275 | preparing an already prepared template again at the same time changes nothing: no new id, no new creation time |
| FocusApi.RunProblem | src-tauri/src/lib.rs:798-806 | a run start is refused exactly for a blank source, a non-positive plan or a blank timer type |
| FocusApi.NewRun | src-tauri/src/lib.rs:794-831 | an accepted start gives a running run under the generated id with trimmed, non-empty source and timer type |
| FocusApi.FinishStatus | src-tauri/src/lib.rs:863-866 | a finish status is accepted exactly when it is `completed` or `aborted` after trimming and lower-casing |
| FocusApi.FinishedRun | src-tauri/src/lib.rs:868-883 | the finished row has a non-negative time, the given or current end, and tags and note merged as `COALESCE` does; other columns keep their values |
| FocusApi.FinishedIsFinal | src-tauri/src/lib.rs:858-898 | a finished run is no longer running and keeps its id, source and start |
| FocusApi.NotFoundOr | src-tauri/src/lib.rs:1313-1320 | an error text containing "not found" becomes 404, any other gets the handler's status |
| FocusApi.StatusMapping | src-tauri/src/lib.rs:1365-1372 | missing templates and runs become 404; an unsupported finish status stays 400 |
| LanGateway.SyncPayload | src-tauri/src/lib.rs:289-293 | the broadcast text is the JSON object `{"action":…}` around the action |
| LanGateway.FinishWriteOutcome | src-tauri/src/lib.rs:1358-1376 | finishing answers 404 for an unknown id; it succeeds exactly when the update and the re-read work, and only a known id is rewritten |
| LanGateway.LanState.CreateTask | src-tauri/src/lib.rs:1173-1184 | an insert fails with 500 on an outage or a reused id and then leaves the table and the event log alone; a successful one stores the task and then publishes `SYNC_TASKS` |
| LanGateway.LanState.UpdateTask | src-tauri/src/lib.rs:1186-1199 | a failed update changes and publishes nothing; otherwise the answer is the task under the path id, a stored row gets every column but its id and creation time, an unknown id changes no row, and `SYNC_TASKS` is published once |
| LanGateway.LanState.DeleteTask | src-tauri/src/lib.rs:1201-1212 | a successful delete removes the id, answers 204 and publishes; a failed one changes nothing |
| LanGateway.LanState.CreateTemplate | src-tauri/src/lib.rs:1250-1284 | an invalid template is refused with 400 before any write; a successful insert stores the defaulted template and only then publishes `SYNC_FOCUS_TEMPLATES` |
| LanGateway.LanState.UpdateTemplate | src-tauri/src/lib.rs:1286-1324 | an invalid template is refused before any write; an unknown id is 404; success rewrites the row but its id and creation time, and publishes |
| LanGateway.LanState.ArchiveTemplate | src-tauri/src/lib.rs:1326-1343 | archiving succeeds exactly for a stored id while the database works, answers 204, sets the archived flag and update time and publishes; an unknown id is 404 |
| LanGateway.LanState.StartRun | src-tauri/src/lib.rs:1345-1356 | a refused or failed start answers 400 and writes nothing; a started run is stored and published |
| LanGateway.LanState.FinishRun | src-tauri/src/lib.rs:1358-1376 | an unsupported status is 400 with nothing written; otherwise the write follows the finish outcome and publishes only on success |
| LocalServer.ServerSlot.Toggle | src-tauri/src/lib.rs:1474-1575 | port 0 is refused before the slot is touched; otherwise the running server is retired, and a new one is installed only when enabling with the database ready and the bind succeeding, with the matching message in every case |
| PlanImport.HeaderDate | src-tauri/src/lib.rs:3031-3037 | a date taken from a header has the date shape |
| PlanImport.LeadingTime | src-tauri/src/lib.rs:3049-3057 | a bracketed start time is taken only when it parses as a clock |
| PlanImport.DateAndText | src-tauri/src/lib.rs:3059-3072 | the task date is the current date or a date-shaped window; the text keeps no `@` unless it was left untouched |
| PlanImport.PrioritySuffix | src-tauri/src/lib.rs:3079-3100 | the priority read from a `(level)` suffix is high, medium or low |
| PlanImport.TaskLine | src-tauri/src/lib.rs:3040-3137 | a task comes only from a task line, is done exactly for `[x]`/`[X]`, and is well formed: non-empty title, known priority, clean lower-case tags, a parsable start time, no duration, a date that is today or date-shaped |
| PlanImport.ParseTaskLine | src-tauri/src/lib.rs:3040-3137 | the step-by-step line reader returns the specified task |
| PlanImport.ScanTaskWords | src-tauri/src/lib.rs:3102-3117 | the word loop returns the specified scan |
| PlanImport.ScanWordsTitle | src-tauri/src/lib.rs:3102-3117 | the title is the words that are not `#tags`, joined by single spaces |
| PlanImport.ScanWordsTags | src-tauri/src/lib.rs:3102-3117 | the priority stays high, medium or low and every tag is clean |
| PlanImport.ScanWordsTagsInOrder | src-tauri/src/lib.rs:3102-3110 | the tags are the lower-cased names, leading `#`s removed, of the `#words` naming no priority keyword, in order |
| PlanImport.NoKeywordKeepsPriority | src-tauri/src/lib.rs:3102-3110 | words naming no priority keyword leave the priority as the `(level)` suffix set it |
| PlanImport.LastKeywordWins | src-tauri/src/lib.rs:3102-3110 | the last keyword decides the priority: high for `high` and `urgent`, low for `low`, and medium again for `medium` |
| PlanImport.CollectPlanTasks | src-tauri/src/lib.rs:3024-3139 | the loop over the lines collects exactly the specified tasks |
| PlanImport.ParseMarkdownPlan | src-tauri/src/lib.rs:3023-3150 | the report holds the collected tasks after duration inference, with the total set and nothing created or skipped |
| PlanImport.PlanTasksWellFormed | src-tauri/src/lib.rs:3024-3139 | every imported task is well formed, and there are no more tasks than task lines |
| PlanImport.NextStart | src-tauri/src/lib.rs:3196-3213 | the next start is the earliest strictly later start on the same date, when there is one |
| PlanImport.TenthsBetween | src-tauri/src/lib.rs:3204-3209 | an inferred gap is never below half an hour |
| PlanImport.InferImportDurations | src-tauri/src/lib.rs:3165-3218 | the in-place pass leaves the array equal to the specified inference of its old contents |
| PlanImport.FillDuration | src-tauri/src/lib.rs:3181-3216 | one step sets one slot to its inferred value and leaves every other slot and every start alone |
| PlanImport.EarliestLaterStart | src-tauri/src/lib.rs:3197-3213 | the inner scan finds the specified next start |
| PlanImport.InferredShape | src-tauri/src/lib.rs:3165-3218 | after inference every task has a duration, tasks that had one keep it, and nothing but durations changes |
| PlanImport.InferredUntilNext | src-tauri/src/lib.rs:3196-3213 | an inferred duration is at least half an hour and reaches at most the rounded gap to the next later start |
| DailyLogs.LogToMarkdown | src-tauri/src/lib.rs:2028-2042 | the written text opens with the fence and ends with the content and a line break |
| DailyLogs.SplitFrontmatter | src-tauri/src/lib.rs:1976-1983 | a split text is fence, frontmatter, fence, rest, with no fence inside the frontmatter; there is no split exactly when the text does not open with a fence or none follows |
| DailyLogs.FrontmatterValueFound | src-tauri/src/lib.rs:1928-1932 | a found value is trimmed; nothing is found exactly when no line starts with `key:` |
| DailyLogs.NormalizeLogDate | src-tauri/src/lib.rs:1951-1960 | a trimmed input whose first ten characters have dashes at 4 and 7 gives those ten characters; anything else gives today |
| DailyLogs.LogDateAsciiAgrees | src-tauri/src/lib.rs:1951-1960 | on ASCII input the byte slice as written never panics and gives what the character reading gives |
| DailyLogs.LogDateSplitsCharacter | src-tauri/src/lib.rs:1951-1960 | as written, `2024年1月1日` panics because byte 10 falls inside `月`; the character reading gives today |
| DailyLogs.SyncRateOf | src-tauri/src/lib.rs:1998-2000 | the sync rate is always an `i32`, 80 when missing or unparsable |
| DailyLogs.RoundTrip | src-tauri/src/lib.rs:1972-2042 | reading back a written log gives every field back, and the content with leading line breaks dropped and one appended, when the fields are single-line, trimmed and not ending in `---` |
| DailyLogs.RoundTripContent | src-tauri/src/lib.rs:1972-2042 | content not starting with a line break comes back with exactly one line break appended |
| DailyLogs.NoFrontmatter | src-tauri/src/lib.rs:1972-2026 | text without a leading fence keeps its body and every field takes its fallback |
| DailyLogs.SanitizeShape | src-tauri/src/lib.rs:1934-1949 | a file-name slug has at most 24 characters, all alphanumeric, `-` or `_`, and does not start with a dash |
| DailyLogs.SanitizeEmpty | src-tauri/src/lib.rs:1934-1949 | the slug is empty exactly when the title has no alphanumeric character and no `_` |
| NotesTree.FindNode | src/pages/Notes.tsx:332-341 | a found node has the id and lies in the tree; nothing is found exactly when no node has the id |
| NotesTree.UpdateKeepsShape | src/pages/Notes.tsx:343-353 | renaming keeps the tree's shape, ids and types |
| NotesTree.UpdateRenamesExactlyOne | src/pages/Notes.tsx:343-353 | in a tree with unique ids, the pre-order entries after renaming are the old ones with only that id's name changed |
| NotesTree.RemoveKeepsSurvivors | src/pages/Notes.tsx:355-364 | the entries left are exactly those with another id and no removed ancestor, in their order |
| NotesTree.RemoveNodeGone | src/pages/Notes.tsx:355-364 | no node with the id remains at any depth, and removing an absent id changes nothing |
| NotesTree.AddNodeToFolderCases | src/pages/Notes.tsx:366-377 | no folder id appends at the root; an id naming no folder leaves the tree unchanged; a found folder gains the node as its last child |
| NotesTree.AddUnderFound | src/pages/Notes.tsx:366-377 | under a folder with that id the node becomes its last child |
| NotesTree.AddFilePathReaches | src/pages/Notes.tsx:379-397 | after inserting a path, the tree holds folders along it and a file with its last name |
| NotesTree.AddFilePathIdempotent | src/pages/Notes.tsx:379-397 | inserting the same path twice is inserting it once |
| NotesTree.AddFilePathLevel | src/pages/Notes.tsx:379-397 | the one-level cases: no parts or an existing file change nothing; an existing folder is descended in place; a missing folder is appended |
| TaskService.LegacyToDbDefaults | src/lib/dataService.ts:123-141 | a converted row carries the defaults `09:00`, 1 hour, `none`, `none` and 25 minutes for falsy inputs |
| TaskService.LegacyRoundTrip | src/lib/dataService.ts:123-158 | converting to a row and back gives the task with its falsy fields defaulted and its repeat days dropped, when every tag is non-empty and comma-free |
| TaskService.LegacyRoundTripKeeps | src/lib/dataService.ts:123-158 | the round trip keeps id, title, status, priority and date |
| TaskService.TagsRoundTrip | src/lib/dataService.ts:134 | joining comma-free tags with `,` and splitting with empty pieces dropped gives the non-empty tags back |
| TaskService.ReplaceFirstEffect | src/lib/dataService.ts:239-241 | the update fallback keeps the length, changes only the first task with the id, and is a no-op when the id is absent |
| TaskService.ReplaceFirstIdempotent | src/lib/dataService.ts:239-241 | updating twice with one task is updating once |
| TaskService.WithoutIdEffect | src/lib/dataService.ts:257-258 | the delete fallback drops exactly the tasks with the id and keeps the rest |
| TaskService.WithoutIdAppend | src/lib/dataService.ts:257-258 | deleting from two joined lists is deleting from each and joining, so the other tasks keep their order |
| TaskService.WithoutIdIdempotent | src/lib/dataService.ts:257-258 | deleting twice is deleting once |
| TaskService.UnseenEffect | src/lib/dataService.ts:272-280 | the batch fallback appends exactly the batch tasks whose id was not stored before the call |
| TaskService.UnseenKeepsCopies | src/lib/dataService.ts:272-280 | in-batch duplicates are not filtered against each other |
| TaskService.ImportedMapping | src/lib/dataService.ts:548-563 | each imported task maps to one task with its title, date, status, priority and tags, starting 09:00 for 1 hour with a 25-minute timer |
| TaskService.ImportCreatesAll | src/lib/dataService.ts:548-563 | with fresh ids every imported task is created |
| TaskService.LocalTasks.Create | src/lib/dataService.ts:219-223 | the task is appended to the stored list |
| TaskService.LocalTasks.Update | src/lib/dataService.ts:239-243 | the stored list becomes the list with the first matching task replaced |
| TaskService.LocalTasks.Delete | src/lib/dataService.ts:257-258 | the stored list loses every task with the id |
| TaskService.LocalTasks.BatchCreate | src/lib/dataService.ts:271-282 | the unseen batch tasks are appended in order and their number returned |
| TaskService.LocalTasks.ImportTasks | src/lib/dataService.ts:548-564 | the imported tasks go through the batch fallback under fresh ids |
| LocalPlan.HeaderDate | src/lib/dataService.ts:498-502 | a header date has the date shape |
| LocalPlan.InlineDate | src/lib/dataService.ts:510-515 | the first `@` followed by a date window gives the task date, its ten digits and dashes, and the text with that `@date` cut out and trimmed; without one the current date and the text are kept |
| LocalPlan.ScanPriority | src/lib/dataService.ts:517-530 | the priority is high, medium or low, and medium when no word names one |
| LocalPlan.ScanTags | src/lib/dataService.ts:521-527 | tags are lower-case and never a priority word |
| LocalPlan.ScanTagsInOrder | src/lib/dataService.ts:521-527 | the tags are the lower-cased names after `#` of the hashtags naming no priority, in the order of the words |
| LocalPlan.ScanTagsMembers | src/lib/dataService.ts:521-527 | a tag is kept exactly when some hashtag naming no priority names it |
| LocalPlan.LastPriorityWordWins | src/lib/dataService.ts:518-526 | the last of `#high`, `#urgent` and `#low` (in any case) decides the priority: high for the first two, low for the third |
| LocalPlan.MediumWordIdle | src/lib/dataService.ts:522-526 | a `#medium` word, in any case, changes neither priority, tags nor title |
| LocalPlan.ScanTitle | src/lib/dataService.ts:521-530 | the title parts are exactly the words not starting with `#`, in order |
| LocalPlan.LineTaskFacts | src/lib/dataService.ts:505-541 | whatever the word splitter, a task comes from a marker line, is done exactly for `x`/`X`, has a known status and priority, and takes the inline date, the current date or, when neither is set, today |
| LocalPlan.PlanTasksShaped | src/lib/dataService.ts:490-545 | every task the reader as written gives has a known priority, status `done` or `todo`, and a date-shaped or today's date |
| LocalPlan.TitledPlanWellFormed | src/lib/dataService.ts:490-545 | every task of the corrected reader also has a non-empty title |
| LocalPlan.LineTaskAgrees | src/lib/dataService.ts:514-532 | the reader as written and the corrected one give the same task whenever the text left after the inline date is non-empty with no white space at either end |
| LocalPlan.ParseMarkdownLocally | src/lib/dataService.ts:490-545 | the line loop, splitting words with `split(/\s+/)` as written, returns the tasks of the reader as written, with the total set and nothing created or skipped |
| LocalPlan.EmptyTitleAsWritten | src/lib/dataService.ts:521-532 | as written, `- [ ] @2024-01-01` (any date-only line) gives a task with an empty title |
| LocalPlan.DateOnlyLineSkipped | src/lib/dataService.ts:521-532 | with only non-empty words as title words, a date-only line gives no task |
| LocalPlan.DateOnlyDocument | src/lib/dataService.ts:490-545 | on the one-line document `- [ ] @` and a date, the reader as written reports one task with an empty title and the corrected reader none |
| LocalPlan.TitledLineTaskTitled | src/lib/dataService.ts:521-540 | the corrected reader never gives a task with an empty title |
| VideoBookmark.TimestampSeconds | src/lib/videoBookmark.ts:42-54 | a read tag is bracketed, 6 to 10 characters long, and below 100 hours |
| VideoBookmark.ShortTagChars | src/lib/videoBookmark.ts:51-53 | `[m:ss]` reads as m × 60 + ss |
| VideoBookmark.LongTagChars | src/lib/videoBookmark.ts:45-49 | `[h:mm:ss]` reads as h × 3600 + mm × 60 + ss |
| VideoBookmark.SecondsOutOfRange | src/lib/videoBookmark.ts:43-44 | a seconds field from 60 up is no tag |
| VideoBookmark.ReplaceTimestampTagsWithLinks | src/lib/videoBookmark.ts:62-63 | without a video URL the html is returned unchanged |
| VideoBookmark.ReplaceWithoutBrackets | src/lib/videoBookmark.ts:62-68 | html without `[` is returned unchanged |
| VideoBookmark.StampIsTimestamp | src/lib/videoBookmark.ts:64-66 | every tag the global replace matches is read by `timestampToSeconds`, so the unchanged fallback never applies |
| VideoBookmark.Parsed | src/lib/videoBookmark.ts:11-13 | content not opening with `---\n` parses to no entries and its body unchanged |
| VideoBookmark.ParseFrontmatter | src/lib/videoBookmark.ts:11-27 | the line loop returns the specified entries and body |
| VideoBookmark.ParsedClean | src/lib/videoBookmark.ts:17-23 | parsed keys are unique, and keys and values are trimmed, single-line and free of `:` in the key |
| VideoBookmark.UnassignedKeyAbsent | src/lib/videoBookmark.ts:17-23 | a key that no line assigns is absent |
| VideoBookmark.LastAssignmentWins | src/lib/videoBookmark.ts:17-23 | the value of a key is the one its last assigning line gives |
| VideoBookmark.PutLookup | src/lib/videoBookmark.ts:31 | assigning a key gives it the value and leaves other keys alone |
| VideoBookmark.UpsertReadsBack | src/lib/videoBookmark.ts:29-35 | reading back an upsert gives the old entries with `video` set, and the body after one more line break |
| VideoBookmark.UpsertThenGet | src/lib/videoBookmark.ts:29-40 | after the upsert, the note's video URL is exactly the one written |
| VideoBookmark.UpsertKeepsOthers | src/lib/videoBookmark.ts:29-35 | the upsert keeps every other key's value |
| TaskList.MergeUniqueTags | src/pages/Tasks.tsx:41-50 | the loop returns the specified unique trimmed tags of both lists |
| TaskList.UniqueTrimmedClean | src/pages/Tasks.tsx:41-50 | merged tags have no duplicates and each is trimmed and non-empty |
| TaskList.UniqueTrimmedMembers | src/pages/Tasks.tsx:41-50 | a tag is kept exactly when it is the non-empty trim of some input tag |
| TaskList.UniqueTrimmedPrefix | src/pages/Tasks.tsx:41-50 | the merge of the first list is a prefix of the merge of both, which keeps first-occurrence order |
| TaskList.MergeIdempotent | src/pages/Tasks.tsx:41-50 | merging merged tags again changes nothing |
| TaskList.SavedRecent | src/pages/Tasks.tsx:113-116 | at most three ids are stored, a prefix of the list, and all of a short list |
| TaskList.RememberShape | src/pages/Tasks.tsx:369-376 | `""` and `none` are ignored; otherwise the list is the id followed by the old ids without it, cut to three, and stays duplicate-free |
| TaskList.RememberIdempotent | src/pages/Tasks.tsx:369-376 | remembering an id twice is remembering it once |
| TaskList.Forget | src/pages/Tasks.tsx:378-385 | forgetting drops every copy of the id and keeps every other id |
| TaskList.ForgetAppend | src/pages/Tasks.tsx:378-385 | forgetting from two joined lists is forgetting from each and joining, so the other ids keep their order |
| TaskList.ForgetRemembered | src/pages/Tasks.tsx:369-385 | forgetting a just-remembered id leaves the rest of the remembered list |
| TaskList.FormatTimeReadsBack | src/pages/Tasks.tsx:333-337 | the text is two fields of at least two digits, seconds below 60, reading back as the input |
| TaskList.Flipped | src/pages/Tasks.tsx:572 | the new status is `done` or `todo`, and `done` exactly when the old one was not |
| TaskList.ToggleStatus | src/pages/Tasks.tsx:570-576 | only tasks with the id change, and those only in their status |
| TaskList.ToggleTwice | src/pages/Tasks.tsx:568-583 | toggling twice restores tasks whose status is `done` or `todo` |
| TaskList.PendingUpdate | src/pages/Tasks.tsx:569-578 | an update is sent exactly when some task has the id, and it is a toggled task carrying that id |
| Attendance.UpdateToday | src/pages/Dashboard.tsx:465-470 | only today's entry changes, and it becomes the patch merged over the stored or default record |
| Attendance.UpdateTwice | src/pages/Dashboard.tsx:465-470 | two updates equal one update with the later patch over the earlier |
| Attendance.UpdateNothing | src/pages/Dashboard.tsx:465-470 | an empty patch changes nothing once today has an entry |
| Attendance.Elapsed | src/pages/Dashboard.tsx:475 | the elapsed time is the floored number of whole seconds, and 0 when the clock is behind |
| Attendance.CheckInOutEffect | src/pages/Dashboard.tsx:472-481 | check-out adds the elapsed time and clears the check-in; check-in sets it, clears the check-out, keeps the total and picks the active task; other days stay |
| Attendance.CheckInThenOut | src/pages/Dashboard.tsx:472-481 | checking in then out adds exactly the elapsed seconds to the total |
| Attendance.Streak | src/pages/Dashboard.tsx:524-533 | the streak is at most 30; every counted day has positive focus time, and the day that ended a shorter streak has none |
| Attendance.FormatClockReadsBack | src/pages/Dashboard.tsx:511-516 | the text is three fields, minutes and seconds two digits below 60, reading back as the input |
| Attendance.ToggleTaskDoneEffect | src/pages/Dashboard.tsx:483-493 | only tasks with the id flip between done and todo; the task sent is the first one with the id, or none |
| Resources.ToggleSelectionTwice | src/pages/Resources.tsx:87-91 | toggling flips the id's membership and leaves others; toggling twice restores membership, and the list when the id was absent |
| Resources.MatchBv | src/pages/Resources.tsx:152 | a match is a BV id, and none is found exactly when no position starts one |
| Resources.MatchBvLeftmost | src/pages/Resources.tsx:152 | the match starts at the leftmost BV id start |
| Resources.ParseBvid | src/pages/Resources.tsx:151-158 | the result is a BV id, the direct match when there is one |
| Resources.AddVideoBookmarkEffect | src/pages/Resources.tsx:190-225 | input without a BV id and a case-insensitively known BV id are refused with their messages; otherwise exactly one bookmark is put before the unchanged list, carrying the parsed BV id and the fresh id when nothing was fetched |
| Resources.AddTwiceRefused | src/pages/Resources.tsx:198-202 | adding the same input again is refused as a duplicate, when any fetched bookmark carries the parsed BV id |
| Resources.RemoveVideoBookmark | src/pages/Resources.tsx:227-233 | the bookmarks left are exactly those with another id |
| Resources.RemoveAppend | src/pages/Resources.tsx:227-233 | removing from two joined lists is removing from each and joining, so the other bookmarks keep their order |
| Resources.AddThenRemove | src/pages/Resources.tsx:190-233 | removing a just-added bookmark by its id, when no older bookmark shares that id, restores the list |
| Resources.FormatDurationReadsBack | src/pages/Resources.tsx:160-167 | non-positive input gives `--:--`; otherwise `h:mm:ss` from an hour up and `mm:ss` below, reading back as the input |
| MarkdownPreview.NormalizeMathDelimiters | src/lib/markdown.ts:1-2 | empty input stays empty |
| MarkdownPreview.Truncate | src/lib/markdown.ts:29-30 | text within the limit is kept; longer text becomes its first `maxLength` characters and `...` |
| MarkdownPreview.PreviewBounds | src/lib/markdown.ts:11-31 | a preview is the stripped text when it fits, and otherwise its first characters and `...`, never more than three over the limit |
| MarkdownPreview.QuestionTitleShape | src/lib/markdown.ts:33-38 | an empty preview gives `未命名错题`; any other gives a non-empty title within three over the limit, the preview itself when it fits |
| MarkdownPreview.EmptyNoteUntitled | src/lib/markdown.ts:33-35 | an empty note gets the fallback title |
| SyncAction.NormalizeActionCases | src/hooks/useSync.ts:15-32 | text with a truthy parsed action gives that action; text that fails to parse or has none gives itself; an object with `action` gives it if a string, else null; anything else gives null |
| SyncAction.FiresExactly | src/hooks/useSync.ts:42-45 | the callback runs exactly in the three cases that normalise to the subscribed action |
| SyncAction.FiresForOneAction | src/hooks/useSync.ts:86-91 | a message fires the callbacks of one action name at most |
| SyncAction.BroadcastFiresItsAction | src/hooks/useSync.ts:42-45 | the backend's broadcast for an action runs exactly the subscribers of that action |

## Left out

- I/O is not modelled. The model leaves out file reads and writes, the SQLite pool, the local storage writes and the Tauri `invoke` branches of `TaskService`. Their outcomes are parameters: outage strings, `dbReady` and the bind error.
- Concurrency is not modelled: tokio tasks, `select!` loops, the broadcast channel, WebSocket reconnection, React state batching, and the async race between the duplicate check and the list update in `addVideoBookmark`. Each handler is a sequential method on `LanGateway.LanState`.
- Clock reads, random ids and `now_iso` are parameters. Separate `now_iso()` calls are separate parameters.
- `build_log_stem` is not modelled. It is a clock-formatted prefix around the modelled slug.
- `str::lines` in the plan and log readers is modelled as a split on `\n`. A trailing `\r` is removed by the later trim in every place where it matters.
- `char::is_alphanumeric` in `sanitize_title_for_filename` is a parameter, because the Unicode class is not modelled.
- `to_lowercase`/`toLowerCase` are modelled on ASCII letters only. Every literal they are compared with is ASCII, so every comparison gives the same answer. Tags are stored after lower-casing, though, and there non-ASCII capitals differ: for `#Über` the application stores `über` and the model stores `Über`.
- `DailyLogs.NormalizeLogDate` reads the first ten characters where the source slices the first ten bytes. The two agree on ASCII input (`DailyLogs.LogDateAsciiAgrees`). On other input the source can panic; `DailyLogs.NormalizeLogDateAsWritten` models that panic and "## Findings" lists it. Log parsing and `create_daily_log` use the character reading.
- The length counts of `toPlainPreview` are in characters. The source counts UTF-16 code units.
- `PlanImport.InferImportDurations` does not use `f64` arithmetic. It works in integer tenths of an hour, and `(d + 3) / 6` is the half-up rounding of minutes / 6.
- `infer_import_durations` groups by date and sorts stably. The model instead scans directly for the smallest strictly later start on the same date, which selects the same next start.
- `LanGateway.LanState.CreateTask`: a primary-key conflict is modelled as the constant SQLite message. Other driver errors are the outage parameter.
- `LanGateway.SyncPayload` does not escape JSON special characters. Every action the backend emits is a constant without them.
- `SyncAction.NormalizeAction` receives JSON parsing as a parameter and models numbers as integers.
- `LocalServer.ServerSlot.Toggle`: the spawned server, the router and the IP lookup are left out.
- `TaskList.FormatTimeReadsBack` and `Attendance.FormatClockReadsBack` take natural numbers. Negative and fractional seconds are not modelled, and neither are NaN and the infinities that `formatDuration` refuses.
- `formatPomodoro` in the dashboard is the same text as `formatTime` and is not modelled again.
- `Attendance.Streak`: the date of each day back from today is given by a `dateOf` parameter.
- The regular-expression chains of `normalizeMathDelimiters` and `toPlainPreview` are parameters. Only their final trim and the truncation are modelled.
- `MarkdownPreview.QuestionTitleShape` states only one direction of "the title is `未命名错题` exactly when the preview is empty". The other direction fails when the preview is itself `未命名错题`.
- `extractBilibiliVideoUrl` and `fetchBilibiliMetadata` are parameters of the bookmark rules. `buildVideoUrlWithTimestamp` and `openExternalUrl` are left out: they are URL library and shell calls.
- `VideoBookmark.UpsertReadsBack` requires every existing key to be non-empty and not to start with `---`, and the URL to be trimmed and on one line. Without these conditions a key is dropped or the block closes early. JavaScript's object key order and the special `__proto__` key are not modelled.
- `VideoBookmark.ReplaceTimestampTagsWithLinks` rewrites tags through a model of the global regular expression. The replacement's exact HTML text is not stated.
- `ClockDate.ChronoToday` takes the day count as a parameter. Negative day counts are excluded.

## Findings

| source | as written | input that shows it | evidently intended | confidence | as-written member | corrected member |
|---|---|---|---|---|---|---|
| src-tauri/src/lib.rs:1951-1960 | `&trimmed[0..10]` slices bytes and panics when byte 10 falls inside a multi-byte character; a daily log's date reaches it in `create_daily_log` (lib.rs:2144), and so does a log file stem read by `get_daily_logs` (lib.rs:2117-2125), `resolve_log_path_by_id` (lib.rs:2078) and `update_daily_log` (lib.rs:2210) through `parse_daily_log_markdown` (lib.rs:1985); `update_daily_log` also passes the user's date (lib.rs:2215) | a log dated `2024年1月1日` | an input that does not start with a date falls back to today's date, as every other such input does | not executed | DailyLogs.LogDateSplitsCharacter | DailyLogs.NormalizeLogDate |
| src/lib/dataService.ts:521-532 | `rest.split(/\s+/)` on the empty text left after removing an inline date yields `[""]`, and that empty word counts as a title part | `- [ ] @2024-01-01` | a line with no title words gives no task, as the backend parser does | not executed | LocalPlan.EmptyTitleAsWritten | LocalPlan.DateOnlyLineSkipped |
