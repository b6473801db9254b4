# union workers — a Dafny model of the job core

This project models the core of the `union` background workers, a set of Ruby Faktory jobs
for personal automation, and proves properties of that model. The modelled parts are:

- **Config** (`workers/lib/config.rb`): the lazily loaded YAML configuration. It covers the
  `@data` cache, `get` by dotted path, `validate!` of the required keys, `export_env!` into
  `ENV`, and `reset!`.
- **BrowserJob** (`workers/jobs/browser_job.rb`): the hand-off of browser work. It covers the screen-lock
  gate, the optional browser launch, a task file written to `pending/<jid>.json`, and the
  bounded poll of `done/<jid>.json` with its three outcomes: completed, failed and timed out.
- **SessionHealth** (`workers/jobs/session_health_job.rb`): the `SERVICES` registry, URL
  resolution, the per-service probe with its `playwright-cli` commands (listing, recovery from
  a saved state file, `goto`, `snapshot`, `state-save`), and the split of verdicts into healthy
  and unhealthy names.
- **ProfileValidator** (`workers/lib/profile_validator.rb`): the three field tables,
  `dig_field` and `field_empty?`, the missing-field lists, the completeness percentages
  (including the `overall` score over the merged tables), the completeness bar, and the text
  report.
- **GranolaSync** (`workers/jobs/granola_sync_job.rb`): `safe_filename`, and the `perform`
  loop that skips existing note files unless `force` is set, exports the others and counts
  the successful exports.

Shared modules:

- `wrappers.dfy`: `Option`, `Result`, `Outcome`.
- `values.dfy`: the Ruby/YAML/JSON value tree and Ruby truthiness.
- `text.dfy`: the Ruby `String` operations used, with Ruby's semantics. `split` drops trailing
  empty fields. `strip` removes `\s` and NUL. `\s` and `\w` are ASCII.
- `seqs.dfy`: `select` as `Filter`, subsequences, distinctness.
- `arith.dfy`: small facts about multiplication and division.

Ruby exceptions become explicit error values. A method or function that raises in Ruby
returns `Failure`/`Fail` with the error the source raises. Where only the fact of raising is
modelled, it returns `None` or a model-level error such as `BadMeeting(index)`. The raises of
`BrowserJob` are the cases of its `JobOutcome`:
- `Locked` for the RetryLater of the screen gate;
- `Failed` for "<job> failed: ...";
- `TimedOut` for the timeout;
- `PromptFailed` for an error from `action_prompt`.

The outside world becomes parameters:

- the clock, the random bytes of the job id, and the parsed content of config.yml;
- what each shell command answers: a function of the command's position and the command;
- which result files and saved state files exist.

## Model

| member | source | states |
|---|---|---|
| Config.ResolveAppend | workers/lib/config.rb:41-50 | Walking a dotted path in two parts is walking the second part from where the first part ends. |
| Config.ResolveFailsIff | workers/lib/config.rb:43-49 | `get` raises exactly when, at some segment, the value reached so far is not a Hash or lacks that key. |
| Config.FailureIsUnique | workers/lib/config.rb:43-49 | The walk can fail at only one segment. |
| Config.ResolvePastFailure | workers/lib/config.rb:43-49 | Once a segment fails, no longer prefix of the path resolves. |
| Config.PresentNilIsReturned | workers/lib/config.rb:41-50 | For any dotted path: when the path without its last segment reaches a Hash that holds the last segment with value nil, `get` returns nil rather than raising. The test is `key?`, not truthiness. |
| Config.NilLeafIsMissing | workers/lib/config.rb:41-60 | A two-segment path `section.leaf` set to nil is returned as nil, so `validate!` reports it missing. |
| Config.NilFaktoryUrlIsMissing | workers/lib/config.rb:12-60 | For example, `faktory.url` set to nil counts as missing. |
| Config.MissingKeys | workers/lib/config.rb:56-60 | The keys `validate!` collects are exactly the keys whose `get` raises or gives nil. Each appears once, in declaration order. |
| Config.Bullets | workers/lib/config.rb:65 | Each missing key becomes the line `"  - " + key`. |
| Config.Validation | workers/lib/config.rb:53-66 | `validate!` passes iff every key is present and non-nil. Otherwise it raises one MissingKeyError whose message lists all the missing keys. |
| Config.RequiredKeysAreDistinct | workers/lib/config.rb:11-25 | The thirteen required keys are distinct, so the error names each missing key once. |
| Config.Export | workers/lib/config.rb:72-77 | `||=` never overwrites: every variable set before the export keeps its value. |
| Config.ExportAppend | workers/lib/config.rb:72-80 | The assignments run in order. A later one runs only if every earlier one completed. |
| Config.MissingKeyStopsExport | workers/lib/config.rb:72-79 | A missing key is rescued. The assignments before it stay, and none after it is made. |
| Config.Walk | workers/lib/config.rb:41-50 | The `keys.each` loop of `get` computes the path walk `Resolve`. |
| Config.ExportPairs | workers/lib/config.rb:72-80 | The assignment loop leaves `ENV` as the export fold says. A value that is neither a String nor nil raises TypeError; nil leaves the unset variable unset; a missing key ends the loop silently. |
| Config.Store.Load | workers/lib/config.rb:29-36 | `load!` raises ConfigNotFound without touching `@data` when the file is absent. Otherwise `@data` becomes the file's content. |
| Config.Store.Get | workers/lib/config.rb:38-51 | `get` loads only when `@data` is falsy. It raises ConfigNotFound when the file is absent; otherwise it returns the path lookup in the loaded tree, or raises MissingKeyError. |
| Config.Store.Validate | workers/lib/config.rb:53-66 | `validate!` loads like `get`, then gives the `Validation` of the required keys. |
| Config.Store.ExportEnv | workers/lib/config.rb:68-80 | `export_env!` loads like `get`, then leaves `ENV` and the outcome as the export fold over the four (variable, key) pairs says. |
| Config.Store.Reset | workers/lib/config.rb:82-84 | `reset!` empties the cache, so the next access loads again. |
| Config.Store.constructor | workers/lib/config.rb:27 | The cache starts as nil. |
| Text.Split | workers/lib/config.rb:41 | `split(".")`: no field contains the separator and the last field is never empty. The result is empty iff the string is only separators. |
| Text.SplitRoundTrip | workers/lib/config.rb:41 | `split` loses only the trailing separators: joining its fields with the separator and appending k separators gives the string back. |
| Text.SplitTwoFields | workers/lib/config.rb:41 | `"a.b".split(".")` is `[a, b]` when neither part holds a dot and `b` is non-empty. |
| Text.StripIsPadding | workers/jobs/browser_job.rb:94 | For a text without surrounding whitespace, `strip` gives it exactly when the input is that text padded by whitespace. |
| BrowserJob.Hex | workers/jobs/browser_job.rb:39 | `SecureRandom.hex` writes two lower-case hex digits per byte. |
| BrowserJob.HexInjective | workers/jobs/browser_job.rb:39 | Different random bytes give different job ids. |
| BrowserJob.JobId | workers/jobs/browser_job.rb:39 | A job id is 24 lower-case hex digits. |
| BrowserJob.TaskFileInjective | workers/jobs/browser_job.rb:63 | Different ids give different task files in the same directory. |
| BrowserJob.PendingIsNotDone | workers/jobs/browser_job.rb:20-22 | A pending task file is never a done result file, whatever the ids. |
| BrowserJob.DescriptorJson | workers/jobs/browser_job.rb:57-64 | A task object has exactly the keys jid, job, action and created_at. Reading it back gives the descriptor (round trip). |
| BrowserJob.ScreenUnlocked | workers/jobs/browser_job.rb:93-98 | Unlocked iff the query's output is exactly "false" padded by whitespace; also unlocked when the query raises. |
| BrowserJob.ShortAnswersLock | workers/jobs/browser_job.rb:94-95 | Output shorter than "false", for example empty output or "true", keeps the gate shut. |
| BrowserJob.FalseLineUnlocks | workers/jobs/browser_job.rb:94-95 | The output "false" with a line break opens the gate. |
| BrowserJob.Classify | workers/jobs/browser_job.rb:78-82 | A result fails iff its status is "error", with the message "<job> failed: <output>". Otherwise it completes with its output. |
| BrowserJob.ClassifyExamples | workers/jobs/browser_job.rb:78-82 | "ok", any other status and a missing status all count as success. A failure's message contains the output. |
| BrowserJob.CheckCount | workers/jobs/browser_job.rb:70-86 | The number of checks `while elapsed < timeout` makes is the least n with n·interval ≥ timeout. |
| BrowserJob.CheckCounts | workers/jobs/browser_job.rb:23-24 | With a 5-second interval and an 1800-second timeout there are exactly 360 checks. |
| BrowserJob.CountFromBounds | workers/jobs/browser_job.rb:70-86 | The two bounds determine the number of checks. |
| BrowserJob.BelowTimeout | workers/jobs/browser_job.rb:72 | After k sleeps, the loop condition holds iff k is below the number of checks. |
| BrowserJob.FirstResult | workers/jobs/browser_job.rb:72-83 | The check that returns is the first one that sees the result file. No earlier check saw it. |
| BrowserJob.ProgressMarks | workers/jobs/browser_job.rb:85-87 | Every logged elapsed value is a positive multiple of 30, at most the time slept. |
| BrowserJob.ProgressEverySixthSleep | workers/jobs/browser_job.rb:85-87 | At the 5-second interval, s sleeps log exactly s div 6 progress lines. |
| BrowserJob.WaitForResult | workers/jobs/browser_job.rb:68-91 | The loop returns the classification of the first result seen, after one sleep per earlier check. With no result in the window it sleeps once per check and times out with the source's message. Its progress lines are `ProgressMarks`. |
| BrowserJob.Mailbox.WriteTask | workers/jobs/browser_job.rb:55-66 | `write_task` stores the descriptor at `pending/<jid>.json` and changes no other file. |
| BrowserJob.Perform | workers/jobs/browser_job.rb:26-66 | Locked screen: a retry-later outcome with no file written and no step taken. Otherwise an optional launch with a 3-second pause comes first. If `action_prompt` then raises (the base class always does), that error ends the job with no task file written. Otherwise one task file is written and the job waits under the same id. |
| SessionHealth.ServiceNamesListed | workers/jobs/session_health_job.rb:20-46 | The six services, in declaration order. |
| SessionHealth.ServiceNamesDistinct | workers/jobs/session_health_job.rb:20-46 | The service names are distinct. |
| SessionHealth.Fetch | workers/jobs/session_health_job.rb:64 | `fetch` finds a row iff the name is registered, and that row is the one registered under the name. |
| SessionHealth.Selection | workers/jobs/session_health_job.rb:49-50 | No target means all services, in order. A target means exactly that service, or a KeyError when it is unknown. |
| SessionHealth.UrlFrom | workers/jobs/session_health_job.rb:71 | A static URL is used without reading the configuration. Otherwise the URL is the configuration lookup after the lazy load, or its error. |
| SessionHealth.JiraUrlIsStatic | workers/jobs/session_health_job.rb:37-41 | The jira row resolves to its fixed board URL, whatever the configuration. |
| SessionHealth.ResolveUrl | workers/jobs/session_health_job.rb:71 | The URL is resolved as `UrlFrom` says, and the configuration is loaded only when the row needs it. |
| SessionHealth.UrlFor | workers/jobs/session_health_job.rb:63-66 | `url_for` raises for an unknown name. Otherwise it resolves like `check_service`. |
| SessionHealth.EmbeddedNameCountsAsActive | workers/jobs/session_health_job.rb:97-100 | `session_active?` is a substring test, so a listed "outlook-calendar" makes "outlook" count as active. |
| SessionHealth.MatchesIgnoresCase | workers/jobs/session_health_job.rb:23-89 | For all snapshots and patterns: two snapshots that agree once down-cased match the same patterns (the `/i` flag). |
| SessionHealth.MatchesLowered | workers/jobs/session_health_job.rb:23-89 | Down-casing a snapshot before matching changes nothing. |
| SessionHealth.InboxMatchesOutlook | workers/jobs/session_health_job.rb:23 | For example, "Inbox" matches the outlook pattern. |
| SessionHealth.Approach | workers/jobs/session_health_job.rb:73-86 | The commands up to the snapshot: three for an active session, five with the recovery. |
| SessionHealth.ProbeOrder | workers/jobs/session_health_job.rb:73-86 | The listing comes first, and every later command goes to the service's own session. Recovery (`state-load`, then `open`) precedes `goto`. An inactive session without saved state gets nothing after the listing. |
| SessionHealth.SnapshotDecides | workers/jobs/session_health_job.rb:84-94 | A check that reaches the snapshot is healthy iff the snapshot command succeeded and its output matches the pattern. |
| SessionHealth.StateSavedIffHealthy | workers/jobs/session_health_job.rb:89-94 | `state-save` is sent iff the check is healthy, and then it is the last command. |
| SessionHealth.Playwright.Run | workers/jobs/session_health_job.rb:102-106 | `run_cli` records its command and returns the session tool's answer for it. |
| SessionHealth.ProbeSession | workers/jobs/session_health_job.rb:73-95 | The imperative check sends exactly the commands of `Probe` and returns its verdict. |
| SessionHealth.RunApproach | workers/jobs/session_health_job.rb:73-86 | It sends the recovery (when inactive), `goto` and `snapshot`, and returns the snapshot's answer. |
| SessionHealth.NoStateMeansNoNavigation | workers/jobs/session_health_job.rb:73-81 | An unlisted session with no state file is unhealthy after the listing alone. |
| SessionHealth.CheckService | workers/jobs/session_health_job.rb:70-95 | `check_service` gives the verdict and the commands of `Check`. It reads the configuration only when the row needs it. |
| SessionHealth.Partition | workers/jobs/session_health_job.rb:54-60 | `select`/`reject`: both lists keep evaluation order, and together they are as long as the verdicts. |
| SessionHealth.PartitionMembers | workers/jobs/session_health_job.rb:54-55 | A name is healthy iff it has a true verdict, and unhealthy iff it has a false verdict. |
| SessionHealth.PartitionIsDisjoint | workers/jobs/session_health_job.rb:54-55 | With distinct names, no service is both healthy and unhealthy. |
| SessionHealth.PartitionCoversAll | workers/jobs/session_health_job.rb:54-60 | Every evaluated name is in one of the two lists. |
| SessionHealth.SweepFrom | workers/jobs/session_health_job.rb:52 | The verdict names are a subsequence of the services, in their order, and all of them when nothing raised. |
| SessionHealth.SweepStops | workers/jobs/session_health_job.rb:52 | A check that raises ends the `map` with that error. |
| SessionHealth.SweepStep | workers/jobs/session_health_job.rb:52 | A check that returns puts its verdict first. The rest starts from the configuration state and command count it leaves. |
| SessionHealth.CheckAll | workers/jobs/session_health_job.rb:52 | The `map` loop sends the commands, updates the configuration and gives the verdicts of `SweepFrom`. |
| SessionHealth.Perform | workers/jobs/session_health_job.rb:48-61 | An unknown target raises before any command. Otherwise the checks run in order; the first configuration error aborts the run. Without one, the run returns the partition of verdicts for exactly the selected services. |
| ProfileValidator.DigFieldIsResolveOrNil | workers/lib/profile_validator.rb:125-131 | `dig_field` is the configuration walk with every failure turned into nil. |
| ProfileValidator.DigFieldOfNil | workers/lib/profile_validator.rb:128 | Digging into anything below a non-Hash gives nil. |
| ProfileValidator.BlankValues | workers/lib/profile_validator.rb:122 | Nil, "", [] and {} are empty. `false`, 0, " " and a non-empty array are not. |
| ProfileValidator.MissingFields | workers/lib/profile_validator.rb:50-60 | A missing list holds exactly the table entries whose field is empty, in table order. |
| ProfileValidator.Filled | workers/lib/profile_validator.rb:134 | The filled fields and the missing ones add up to the table size. |
| ProfileValidator.Percent | workers/lib/profile_validator.rb:135 | The score is at most 100 and is 100·filled/size rounded to the nearest integer, halves up. |
| ProfileValidator.PercentFullIff | workers/lib/profile_validator.rb:135 | For fewer than 200 fields, 100 means all fields are filled. |
| ProfileValidator.PercentZeroIff | workers/lib/profile_validator.rb:135 | For fewer than 200 fields, 0 means no field is filled. |
| ProfileValidator.LargeTableRoundsUp | workers/lib/profile_validator.rb:135 | The size bound matters: 199 of 200 rounds to 100. |
| ProfileValidator.PercentComplete | workers/lib/profile_validator.rb:133-136 | `percentage_complete` is at most 100. |
| ProfileValidator.PercentCompleteExtremes | workers/lib/profile_validator.rb:133-136 | A table scores 100 iff none of its fields is missing, and 0 iff all are. |
| ProfileValidator.Put | workers/lib/profile_validator.rb:67 | Merging one entry keeps a present key in place and appends a new one. |
| ProfileValidator.MergeKeys | workers/lib/profile_validator.rb:67 | `a.merge(b)` has the keys of `a` in place, then the new keys of `b` in `b`'s order. |
| ProfileValidator.NewKeysByMask | workers/lib/profile_validator.rb:67 | For distinct keys, the new keys are exactly those not seen before. |
| ProfileValidator.RecommendedKeysAreNew | workers/lib/profile_validator.rb:7-24 | No recommended key is a required key. |
| ProfileValidator.PersonalKeysAddFour | workers/lib/profile_validator.rb:15-34 | Exactly four personal keys (hometown, kids, pets, education) are new after the recommended ones. |
| ProfileValidator.OverallFields | workers/lib/profile_validator.rb:67 | The overall table holds the required, then the recommended, then the four new personal keys: 17 fields, shared keys counted once. |
| ProfileValidator.ProfileName | workers/lib/profile_validator.rb:43 | `@profile["name"]` is the lookup in a Hash profile and `String#[]` on a String one. It raises for any other document. |
| ProfileValidator.Validation | workers/lib/profile_validator.rb:41-71 | `validate` succeeds iff the name lookup does not raise, and all four scores are then at most 100. |
| ProfileValidator.CollectMissing | workers/lib/profile_validator.rb:50-60 | Each `each ... << if field_empty?` loop builds exactly `MissingFields`. |
| ProfileValidator.Validate | workers/lib/profile_validator.rb:41-71 | The imperative `validate` computes `Validation`. |
| ProfileValidator.BarFill | workers/lib/profile_validator.rb:139-140 | The number of `#` cells is pct·width/100 rounded, halves up, and at most the width. |
| ProfileValidator.CompletenessBar | workers/lib/profile_validator.rb:138-142 | The bar is `[`, then `#` for the filled cells and `-` for the rest, then `]`, with width + 2 characters in all. |
| ProfileValidator.BarExtremes | workers/lib/profile_validator.rb:139-141 | 100% fills the bar and 0% leaves it empty. |
| ProfileValidator.Scores | workers/lib/profile_validator.rb:63-68 | Every completeness pair is in range when the scores are. |
| ProfileValidator.ScoreLine | workers/lib/profile_validator.rb:85 | A completeness line is indented, so it is never a heading. |
| ProfileValidator.Item | workers/lib/profile_validator.rb:92-111 | An item line is indented, so it is never a heading. |
| ProfileValidator.ReportHeadings | workers/lib/profile_validator.rb:89-113 | The report's headings, in order, are the REQUIRED, PERSONAL and recommended headings whose lists are non-empty. |
| ProfileValidator.ReportSections | workers/lib/profile_validator.rb:89-113 | Each heading appears in the report iff its list is non-empty. |
| ProfileValidator.AppendScores | workers/lib/profile_validator.rb:82-87 | The completeness loop appends one score line per category, in order. |
| ProfileValidator.AppendSection | workers/lib/profile_validator.rb:89-113 | An `if any?` block appends nothing for an empty list; otherwise the heading, one item per entry and, except for the last block, a blank line. |
| ProfileValidator.Render | workers/lib/profile_validator.rb:75-115 | The body of `report` joins with newlines exactly the lines of `ReportLines`. |
| ProfileValidator.Report | workers/lib/profile_validator.rb:73-116 | `report` raises iff `validate` raises. Otherwise it is the join of the report lines. |
| GranolaSync.CollapseSpace | workers/jobs/granola_sync_job.rb:64 | The result contains no whitespace. After the first `gsub`, only word characters and hyphens remain. A string without whitespace is unchanged. |
| GranolaSync.CollapseSpaceIsHyphenateRuns | workers/jobs/granola_sync_job.rb:64 | `gsub(/\s+/, "-")` equals a character-at-a-time reference: each `\s` that does not follow another `\s` writes one hyphen, later ones in the run write nothing, and every other character is copied. |
| GranolaSync.Take51 | workers/jobs/granola_sync_job.rb:65 | `[0..50]` is the first 51 characters, or the whole string when it is shorter. |
| GranolaSync.SanitizeIsSafe | workers/jobs/granola_sync_job.rb:62-65 | A sanitised title uses only `a-z`, `0-9`, `_` and `-`, and has at most 51 characters. |
| GranolaSync.SanitizeOfSafe | workers/jobs/granola_sync_job.rb:62-65 | A safe title of at most 51 characters is its own sanitised form. |
| GranolaSync.SanitizeIdempotent | workers/jobs/granola_sync_job.rb:62-65 | Sanitising twice is sanitising once. |
| GranolaSync.SanitizeUntitled | workers/jobs/granola_sync_job.rb:59-65 | The default title "untitled" survives sanitising. |
| GranolaSync.DatePart | workers/jobs/granola_sync_job.rb:58 | A nil date, or one made only of `T`s, gives "unknown". Another String gives its text up to the first `T`. Any other value raises. |
| GranolaSync.TitleText | workers/jobs/granola_sync_job.rb:59 | A nil or false title gives "untitled" and a String gives itself. Any other value raises in `gsub`. |
| GranolaSync.FilenameExists | workers/jobs/granola_sync_job.rb:57-68 | `safe_filename` succeeds iff neither the date nor the title raises. |
| GranolaSync.FilenameShape | workers/jobs/granola_sync_job.rb:57-68 | A file name is the date part, `-`, a safe title of at most 51 characters, then `.md`. |
| GranolaSync.UntitledFilename | workers/jobs/granola_sync_job.rb:58-67 | Without a title, the file is `<date>-untitled.md`. |
| GranolaSync.SyncLength | workers/jobs/granola_sync_job.rb:31-49 | Until a meeting raises, each meeting leaves exactly one step. |
| GranolaSync.SyncCounts | workers/jobs/granola_sync_job.rb:43-46 | `synced_count` is the number of successful exports, so at most the number of meetings. |
| GranolaSync.SyncWrites | workers/jobs/granola_sync_job.rb:37-46 | Files are never removed. A file that is new or changed was written by an export of that path. |
| GranolaSync.NoForceKeepsFiles | workers/jobs/granola_sync_job.rb:37 | Without `force`, no file that existed before is changed. |
| GranolaSync.SyncPrefix | workers/jobs/granola_sync_job.rb:31-49 | The steps for the first k meetings are a prefix of all the steps. |
| GranolaSync.StepOutcome | workers/jobs/granola_sync_job.rb:32-48 | A meeting that does not raise adds one step for its own path. The step is a skip iff the file exists and `force` is not set. |
| GranolaSync.SkipRule | workers/jobs/granola_sync_job.rb:37 | Meeting k is skipped iff its file exists just before it (after the earlier meetings' writes) and `force` is not set. |
| GranolaSync.SyncAfterError | workers/jobs/granola_sync_job.rb:31-33 | Once a meeting has raised, the later meetings change nothing. |
| GranolaSync.NotesDir.ExportAll | workers/jobs/granola_sync_job.rb:29-49 | The `meetings.each` loop leaves the files, the steps and the count of the `Sync` fold. It raises at the first bad meeting. |
| GranolaSync.NotesDir.Perform | workers/jobs/granola_sync_job.rb:15-53 | A failed listing raises the source's message and changes nothing. Otherwise the files, steps and result are those of the fold with `safe_filename`, truthy `force` and the export command. |

## Left out

- ProfileValidator.Percent: rounds exactly, halves up, on the rational 100·filled/size. Ruby computes `to_f`, `/`, `* 100` and `round` in Float, which can differ when the exact value is within rounding error of a half. The same holds for ProfileValidator.BarFill.
- ProfileValidator.PercentComplete: requires a non-empty table. The three source tables are never empty; an empty one would make Ruby round `NaN` and raise.
- ProfileValidator.Validation: states the overall score only through `OverallFields`, not as a closed formula over the profile.
- Parsing: `YAML.load_file`, `YAML.safe_load`, `JSON.parse` and `JSON.pretty_generate` are not modelled. The model starts from parsed value trees, and a parse error is outside it. `DescriptorJson` is the object written, not its text.
- BrowserJob.WaitForResult: a result file is modelled as a record with a status and an output. A result file holding valid JSON that is not an object (`null` raises NoMethodError, an array raises TypeError on `result['status']`) is not modelled.
- YAML keys that are not strings (integers, symbols) are not modelled: Hash keys are strings.
- `Value` has no Float or Symbol leaf. YAML and JSON give Floats, and config.rb:35 permits Symbols. Such leaves behave like `Int` in every modelled predicate (truthy, non-blank, not a Hash, not a String), except in `Display`.
- `Display` renders scalars as Ruby's `to_s` does. For arrays and hashes it gives a placeholder, not Ruby's `inspect` text.
- Logging (`LOGGER.info`/`warn`) is not modelled. The only exception is the poller's progress lines, which are kept as a ghost result.
- `FileUtils.mkdir_p` of the pending and notes directories is not modelled.
- `sleep` is modelled only as counts and `Pause` steps, not as time. The `sleep 2` between `goto` and `snapshot` in `check_service` (session_health_job.rb:85) has no counterpart: it sends no command, and the snapshot's answer is a parameter.
- SessionHealth.UrlFrom: a row with neither `static_url` nor `url_key` gives `NoUrlKey` without loading the configuration. The source would call `Config.get(nil)`, which loads first and then raises NoMethodError on `nil.split`. No row of `SERVICES` reaches this path.
- `Time.now` is replaced by the `createdAt` parameter, and `SecureRandom.hex(12)` by its twelve bytes as a parameter.
- `chrome_running?` and the `open -a` launch are modelled as a parameter and a step, not as processes.
- Shell commands (`ioreg`, `playwright-cli`, `granola-cli`) are answer functions, indexed by the command's position. Quoting and word splitting of the joined command line are not modelled.
- The meeting listing's `--limit 50` is not modelled: the listing is any sequence of meetings.
- A listed meeting that is not a Hash (where `meeting["id"]` would raise or index differently) is not modelled.
- `AUTH_STATE_DIR` points to a constant that browser_job.rb does not define, so the state directory is a parameter.
- `NOTES_DIR` is a parameter, because its home-directory expansion depends on the environment.
- GranolaSync.NotePath, SessionHealth.StateFile, BrowserJob.PendingDir, BrowserJob.DoneDir and BrowserJob.TaskFile: join with a plain `/`. Ruby's `File.join` does not double a separator, so a directory ending in `/` (for instance the state directory or the tasks directory), or a date field starting with `/`, gives a different path here (`dir//name`) than in the source.
- The readiness patterns are modelled as alternations of literal lower-case words, matched after ASCII down-casing of the snapshot. General regular expressions are not modelled.
- The ConfigNotFoundError message, which embeds the absolute `CONFIG_PATH`, is not modelled. Only the error kind is.
- `ProfileValidator#initialize`, the command-line block of profile_validator.rb, and the Faktory job plumbing are not modelled.
- Three behaviours of the code that are easy to misread, each modelled as written:
  - Only the standard output of the lock query is captured, and `plutil`'s errors are discarded. A missing `ioreg` therefore gives empty output, and the gate stays shut (`BrowserJob.ShortAnswersLock`). Only an exception raised in Ruby opens it (browser_job.rb:93-98).
  - A configuration error while resolving one service's URL raises out of `perform` and ends the whole health run (`SessionHealth.SweepStops`, `SessionHealth.Perform`; session_health_job.rb:48-61, 71).
  - Every result status other than "error", including a missing one, counts as success (`BrowserJob.ClassifyExamples`; browser_job.rb:78).
