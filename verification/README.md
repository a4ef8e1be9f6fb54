# A verified model of piLoci

piLoci is a self-hosted memory server for coding assistants. It installs itself into the config files of a dozen
clients, streams chat answers, exports and imports whole accounts, and keeps a handful of small protocols in Redis and
SQLite. This project models the parts of it that edit text, merge data or keep a protocol's state, and proves what
those parts promise. `dafny verify dfyconfig.toml` checks all of it.

Code made of expressions and regular expressions is modelled by functions; loops and in-place updates are methods over
classes, each proved equal to a function of the old state, and the promises are then lemmas about that function.

## Modules

- `Text`, `Numerals`, `Json`, `JsonText`: Python strings, decimal numerals, JSON values as Python holds them, and the
  printers and the reader of RFC 8259 (`json.dumps` indented and plain, `orjson.dumps`, `json.loads`). A printer takes
  the text that is to follow, which keeps every proof about concatenation local.
- `JsonGrammar`, `JsonReader`: RFC 8259 as syntax trees that say how every token is written and what stands between any
  two, and the reader proved to accept exactly their texts.
- `Jsonc`, `JsoncTokens`, `JsoncRoundTrip`, `JsoncReader`, `ParseFacts`: the comment-tolerant reader of the installer, on
  any text, on JSON of any layout with comments and last commas, and on what the installer itself writes.
- `Configs`, `Hooks`, `HookLaws`, `HookRuns`: merging an MCP entry or the hook entries into a JSON object, repeating it,
  and taking it out again.
- `LegacyToml`, `TomlHeaders`, `CodexBlock`, `CodexRegex`, `CodexBody`, `CodexHistory`: Codex's `config.toml`, edited without parsing
  TOML: the line filter for old piLoci tables, and the fenced block over whole install histories.
- `ConfigFiles`: nine config files with their backups as one file system. An event is an installation, which sweeps
  Claude Code's settings and OpenCode's config before the steps of the chosen clients, a restore, or an uninstall.
- `SoundObjects`, `Rereads`, `Edits`: one client's object under steps, removals and rewrites; rewriting commutes with
  editing and removing.
- `InstallRuns`, `ConfigRuns`, `ConfigTexts`, `Uninstall`, `CodexRuns`: arbitrary histories of those events: what backups hold, what
  comes back, and what a config ends up with.
- `Sse`, `SseRoundTrip`, `SseMeaning`: the browser's incremental splitter, the server's frames, the two together under
  any chunking, and what any block or broken-off stream fires.
- `Slugs`, `ArchiveImport`, `ImportOutcomes`, `ArchiveExport`, `ArchiveRoundTrip`: account export and import.
- `Consolidate`, `Routing`, `ConsolidateRun`, `ConsolidateDb`, `ConsolidateLimits`: the project consolidation script, from routing
  to the last table, and when it mixes users or is refused.
- `Pairing`, `PairingStore`: one-time install codes under every interleaving, and the store's own code.
- `Resolve`, `ProjectsCache`, `Staleness`: resolve-or-create of projects, the per-user project cache as heap objects,
  and how old a list it can serve.
- `ContextPack`, `Admin`, `Ingest`: prompt packing, the administrator handlers, and the session queue.

## Where the code and its own documentation differ

The model follows the code.

- `_parse_jsonc` says it strips comments and trailing commas. Its second substitution also rewrites string literals: a
  comma before spaces and a closing bracket is lost. `JsoncRoundTrip.ConfigReadBack` gives the exact result for every
  value, `ConfigRoundTrip` the exact condition for a loss-free round trip.
- `run_uninstall` promises the pre-install state. Backups are written from `read_text`, which turns every line end into
  a line feed, so the original bytes come back only if they hold no carriage return (`InstallRuns.CarriageReturnLost`).
  And every installation first runs `cleanup_legacy_install`, which rewrites Claude Code's settings and `opencode.json`
  without a backup. If one of those two already held a piLoci part, the backup lacks it. `InstallRuns.RestoreGivesBack`
  gives the condition in both directions.
- A config that did not exist at the first install is backed up at the second one. The backup is what the second
  install finds: piLoci's own output, or for the two swept configs what the sweep leaves of it, for Claude Code's
  settings `{}` (`InstallRuns.SecondInstallBacksUp`, `EmptySettingsBackedUp`). Restoring then brings that file back
  instead of removing it.
- The sweep is meant for what older versions left behind, but it takes the current version's hooks and OpenCode entry
  too. Installing Claude Code and later only Cursor leaves the settings without hooks: the last step on a swept client
  has the last word if and only if no later installation is without one (`ConfigRuns.RunIsLastStep`).
- Uninstalling without restore gives back the very object exactly when it was undoable and no string in it has a comma
  before a closing bracket (`Uninstall.UninstallUndoes`).
- A Codex install is idempotent only if no begin marker is left in the user's part (`CodexHistory.InstallTwice`, both
  directions). Otherwise the second install removes everything from that marker to the end marker of the first one's
  block, the user's lines in between included; `CodexHistory.LoneMarker` is such a file.
- `route` says that any other directory under the sorin root folds into it. The root itself is routed nowhere and
  stands alone; it is still a survivor. The plan looks survivors up by path only, so rows can move to another user's
  project; `ConsolidateLimits.OwnersKept` says exactly when they do not, `AnnsRowsBecomeBobs` shows two users.
- The re-stamp at the end of the script can break the unique constraint, and the whole transaction is lost.
  `ConsolidateLimits.RefusedIff` names the projects that cause it.
- `consume` is documented as atomic and single-use. It is, but a GETDEL whose reply is lost costs the code: the
  fallback finds nothing (`Pairing.GoneForGood`).
- The session queue claims to deduplicate by session id. It looks up the whole id and stores its first 200 characters,
  so a longer id is queued again on every replay (`Ingest.Replay`; `StoredTwice` is one id of 201 characters).
- `create_project_fn` says it is idempotent for the same directory. It is, unless the slug belonged to another directory
  at first: the project split off then is not found again, and asking a second time fails (`Resolve.CreateTwice`).
- Administrators cannot demote, deactivate or delete themselves, but they can reject their own account. The last
  usable administrator is lost by that request and by no other (`Admin.LastUsableLost`), and then for good
  (`Admin.SelfRejection`, on a new server).

## Model

| member | source | states |
|---|---|---|
| JsonText.PrintReadBack | src/piloci/installer.py:458 | printed JSON reads back as the value with repeated keys resolved, in all three printing styles |
| JsonText.DumpsLoads | src/piloci/installer.py:458 | loads(dumps(v)) is v for every value Python can hold |
| JsonReader.LoadsExactly | src/piloci/installer.py:53 | a text is read as a value if and only if it is one of its texts under RFC 8259: any white space between tokens, any escape of section 7, numbers of section 6, and nothing else |
| JsonReader.LettersTextRead | src/piloci/installer.py:53 | a string literal is read as the characters it spells, however each one is written |
| JsonReader.NumberSplit | src/piloci/installer.py:53 | the numbers the reader takes are those with the parts of section 6 |
| Configs.DictKeepsLast | src/piloci/installer.py:53 | of the entries with one key the last gives the value |
| Configs.DictOrder | src/piloci/installer.py:53 | a dict has the keys of its entries in the order in which they first occur |
| Jsonc.StringRestIsMatch | src/piloci/installer.py:35 | the scanner finds a string literal exactly where the string alternative of the token expression matches, and only there |
| Jsonc.BlockRestIsFirst | src/piloci/installer.py:37 | a block comment ends at the first end mark, or nowhere if there is none |
| Jsonc.BlankingShape | src/piloci/installer.py:45-51 | every character of any text, also with unclosed strings and comments, is copied or turned into a space; line feeds stay |
| Jsonc.UnclosedWhenBlanked | src/piloci/installer.py:34-51 | blanking never closes a string that was open |
| Jsonc.BlankingIdempotent | src/piloci/installer.py:34-51 | blanking a second time changes nothing, on any text |
| JsoncTokens.LiteralIs | src/piloci/installer.py:35 | a prefix is scanned as a string literal exactly when it is a full match of that alternative |
| JsoncTokens.CommentIs | src/piloci/installer.py:36-37 | a prefix is scanned as a comment exactly when it is a full line comment or the shortest block comment |
| JsoncTokens.OtherIs | src/piloci/installer.py:34-39 | no token is found exactly when no prefix matches the expression |
| JsoncTokens.BlankingIsSubstitution | src/piloci/installer.py:45-51 | blanking is the substitution: every text can be cut from the left into matches and unmatched characters, and any such cut gives the blanked text |
| JsoncTokens.DropsExactly | src/piloci/installer.py:52 | one pass of the second substitution removes every comma before white space and a closing bracket, and nothing else |
| JsoncReader.DocumentParsed | src/piloci/installer.py:42-53 | any JSON text with comments anywhere between its tokens and commas behind last items is read as its value, but for the commas inside strings that stand before white space and a closing bracket |
| JsoncReader.LosslessParsed | src/piloci/installer.py:42-53 | what the function promises, comments and trailing commas stripped, on every text whose strings have no such comma |
| JsoncReader.TreeBlanked | src/piloci/installer.py:51 | blanking turns the comments between tokens into white space and touches nothing else |
| JsoncReader.TreeDropped | src/piloci/installer.py:52 | of such a text the second substitution drops the commas behind last items, and those inside strings |
| JsoncRoundTrip.EscapedClosesAtQuote | src/piloci/installer.py:35 | the scanner ends a printed string at the quote the printer wrote, whatever the string holds |
| JsoncRoundTrip.NumberInert | src/piloci/installer.py:34-38 | a JSON number contains nothing a comment, string or comma could begin with |
| JsoncRoundTrip.PrintCopied | src/piloci/installer.py:51 | comment blanking is the identity on printed JSON, though strings may contain comment marks, quotes and backslashes |
| JsoncRoundTrip.PrintTrimmed | src/piloci/installer.py:52 | dropping trailing commas from printed JSON is printing the value whose strings lost their commas before a closing bracket |
| JsoncRoundTrip.TrimmedIff | src/piloci/installer.py:52 | a string is rewritten exactly when it contains a comma, spaces and a closing bracket in a row |
| JsoncRoundTrip.ConfigReadBack | src/piloci/installer.py:42-53 | what reading back a printed config gives, for every value |
| JsoncRoundTrip.ConfigRoundTrip | src/piloci/installer.py:42-53 | a printed config reads back as itself if and only if no string or key in it has a comma before spaces and a closing bracket |
| JsoncRoundTrip.ConfigLosesComma | src/piloci/installer.py:52 | the string "a,]" comes back as "a]" |
| ParseFacts.ReadWellFormed | src/piloci/installer.py:53 | json.loads returns only values with valid numbers and distinct keys |
| ParseFacts.ParsedWellFormed | src/piloci/installer.py:42-53 | the same of _parse_jsonc, for any file content |
| ParseFacts.ReadTextSame | src/piloci/installer.py:439 | reading a file as text gives its content exactly when it holds no carriage return |
| ParseFacts.ReadTextIs | src/piloci/installer.py:439 | any text is lines with line ends of three kinds between them, and is read with a line feed for each |
| ParseFacts.PrintedLacks | src/piloci/installer.py:458 | json.dumps writes printable ASCII only, but for the line feeds of its layout |
| ParseFacts.PrintedReadText | src/piloci/installer.py:458 | what a merge writes is not changed by being read as text |
| LegacyToml.FilterLines | src/piloci/installer.py:592-605 | the loop keeps the lines and counts the headers the specification says |
| LegacyToml.StripLegacyCodexPiloci | src/piloci/installer.py:577-605 | text and count of the whole filter |
| LegacyToml.FilterMeaning | src/piloci/installer.py:584-604 | a line is kept exactly when the last section header at or before it is no piLoci header; order is kept |
| LegacyToml.SplitProper | src/piloci/installer.py:595 | splitting into lines loses nothing and yields proper lines |
| LegacyToml.SplitOfJoin | src/piloci/installer.py:605 | proper lines joined and split again are the same lines |
| LegacyToml.FilteredLines | src/piloci/installer.py:577-605 | the filtered text splits into exactly the kept lines, none of them a piLoci header |
| LegacyToml.FilterIdentity | src/piloci/installer.py:584-588 | text without piLoci headers is left as it is, with count 0 |
| LegacyToml.FilterIdempotent | src/piloci/installer.py:577-605 | a second run is the identity with count 0, on any text |
| TomlHeaders.HeaderIsExpression | src/piloci/installer.py:574 | the header test holds exactly of the full matches of the section-header expression |
| TomlHeaders.TrailingSpace | src/piloci/installer.py:596-598 | white space at the end of a line never changes how the filter classifies it |
| TomlHeaders.PilociNamed | src/piloci/installer.py:596-600 | a table is piLoci's exactly when it is mcp_servers.piloci or below it |
| TomlHeaders.StrippedEnd | src/piloci/installer.py:661-664 | stripping the end of a filtered text and adding a line feed creates no piLoci header |
| CodexRegex.StripIsSubstitution | src/piloci/installer.py:568-571 | stripping replaces the leftmost, shortest match of the block expression and goes on behind it; text without a match stays |
| CodexRegex.MatchBounds | src/piloci/installer.py:568-571 | every match of the expression begins no further left and ends no earlier than the one stripped |
| CodexBlock.StripAppendedBlock | src/piloci/installer.py:568-571 | stripping text followed by a block removes exactly the block and the line feeds before it |
| CodexBlock.CleanedInstalled | src/piloci/installer.py:641-664 | cleaning an installed file gives the user's part it was installed around |
| CodexBlock.InstalledText | src/piloci/installer.py:641-664 | the user's part stands whole in front of the fenced lines |
| CodexBlock.Reinstalled | src/piloci/installer.py:661-664 | installing with one token and then another is installing with the other on the original |
| CodexBlock.HistoryIsLastInstall | src/piloci/installer.py:661-664 | after any installations the file is what the last alone would have made of the original |
| CodexBlock.HistoryUninstalled | src/piloci/installer.py:835-843 | uninstalling after any installations leaves the user's part and one line feed, or an empty file, when that part holds no begin marker |
| CodexBlock.UntouchedFile | src/piloci/installer.py:835-843 | a file without markers and piLoci tables is not rewritten by uninstalling |
| CodexHistory.StripShrinks | src/piloci/installer.py:568-571 | a begin marker before a block makes the stripping take more than the block |
| CodexHistory.InstallTwice | src/piloci/installer.py:641-664 | installing twice is installing once if and only if the user's part holds no begin marker |
| CodexHistory.UninstalledIff | src/piloci/installer.py:835-843 | uninstalling after any installations leaves the user's part and one line feed if and only if that part holds no begin marker |
| CodexHistory.HistoryShrinks | src/piloci/installer.py:661-664 | no installation adds to the user's part, and one with a begin marker loses text at the first |
| CodexHistory.LoneMarker | src/piloci/installer.py:568-571 | a file with a begin marker and one line behind it: the second installation differs and uninstalling does not leave the two lines |
| CodexHistory.StrippedLeavesOpen | src/piloci/installer.py:568-571 | a begin marker survives stripping only if one had no end marker behind it |
| CodexHistory.BalancedIsSafe | src/piloci/installer.py:661-663 | if every begin marker of the file has an end marker behind it, the history theorems apply to it |
| CodexBody.BodyHasNoEnd | src/piloci/installer.py:641-660 | the generated block holds no end marker unless the URL, the token or a script path does |
| CodexBody.BodyIs | src/piloci/installer.py:641-660 | the URL stands in the server's table, the token in its headers, each script under its own event |
| Configs.MergeKeepsOthers | src/piloci/installer.py:452-456 | a merge sets its entry and leaves every sibling server and every other key |
| Configs.MergeTwice | src/piloci/installer.py:452-456 | a later merge replaces an earlier one entirely |
| Configs.AfterMergesIsLast | src/piloci/installer.py:452-456 | any number of merges is the last of them |
| Configs.RemoveAfterMerge | src/piloci/installer.py:466-483 | removal undoes a merge if and only if the bucket was absent or a non-empty object without the entry |
| Configs.MergesUndone | src/piloci/installer.py:466-483 | the same after any number of merges |
| Hooks.Tagged | src/piloci/installer.py:295 | an entry is piLoci's exactly when its printed text mentions the config directory |
| Hooks.FilterForeign | src/piloci/installer.py:704 | the loop keeps the foreign entries in order |
| Hooks.CleanHookEvents | src/piloci/installer.py:700-712 | the loop that edits the dict it iterates over filters each event once, drops emptied ones and reports whether anything changed |
| HookLaws.TaggedIffMentions | src/piloci/installer.py:295 | the test on the printed entry holds exactly when some string or key in it mentions the config directory |
| HookLaws.OwnEntryTagged | src/piloci/installer.py:295-310 | every entry the installer writes is recognised as piLoci's, for any launcher and script |
| HookRuns.BothEvents | src/piloci/installer.py:289-310 | what one installation leaves under every event: the session start hook under the one, the stop hook under the other, behind the foreign entries |
| HookRuns.InstalledCommands | src/piloci/installer.py:289-310 | what the last entry of each event runs after an installation |
| HookRuns.InstallHooksTwice | src/piloci/installer.py:284-313 | installing the hooks again, with any launcher, is installing that way on the original object |
| HookRuns.HookArrays | src/piloci/installer.py:284-313 | after any installations, each with its sweep, the two events hold exactly one piLoci entry, last, behind the user's entries in order; every other event has lost piLoci's entries and is gone if it held nothing else; other keys are unchanged |
| HookRuns.HooksUndone | src/piloci/installer.py:691-715 | removal after any installations, each with its sweep, gives the object back if and only if it had no hooks, or a non-empty dict of them without piLoci entries whose two events are absent or non-empty lists |
| HookRuns.SweepEvent | src/piloci/installer.py:691-715 | one sweep: every event loses piLoci's entries and is gone if it held nothing else; other keys stay |
| ConfigFiles.FileSystem.LoadForEdit | src/piloci/installer.py:437-450 | the shared head of all merges: the object to edit, the corrupt copy, the backup written once; no other client's files change |
| ConfigFiles.FileSystem.MergeJsonMcp | src/piloci/installer.py:421-463 | one server step as a function of the client's files before |
| ConfigFiles.FileSystem.MergeClaudeSettings | src/piloci/installer.py:266-313 | one hooks step |
| ConfigFiles.FileSystem.InstallOpenCode | src/piloci/installer.py:337-362 | one OpenCode step, with its schema key |
| ConfigFiles.FileSystem.InstallCodexMcp | src/piloci/installer.py:608-669 | one Codex step |
| ConfigFiles.FileSystem.CleanupSettings | src/piloci/installer.py:691-715 | the hooks part of the sweep, through the loop over the events |
| ConfigFiles.FileSystem.RemoveJsonMcpEntry | src/piloci/installer.py:466-483 | surgical removal of one server entry, and whether it changed |
| ConfigFiles.FileSystem.CleanupLegacyInstall | src/piloci/installer.py:672-739 | the sweep of the two configs; nothing else changes |
| ConfigFiles.FileSystem.RunInstall | src/piloci/installer.py:937-983 | the files of every client after one installation: the sweep, then the steps in order |
| ConfigFiles.FileSystem.CleanCodex | src/piloci/installer.py:835-843 | taking the block and the old tables out of the Codex config |
| ConfigFiles.FileSystem.ListBackups | src/piloci/installer.py:777-780 | the targets that have a backup, and no others |
| ConfigFiles.FileSystem.RestoreBackups | src/piloci/installer.py:783-794 | every backed-up target gets its backup's text and loses the backup; all other files stay |
| ConfigFiles.FileSystem.RunUninstall | src/piloci/installer.py:797-851 | every config, backup and corrupt copy after uninstalling, with and without restore |
| SoundObjects.CleanedFrom | src/piloci/installer.py:701-712 | cleaning the events adds nothing and keeps the rest printable without loss |
| SoundObjects.ExistingSound | src/piloci/installer.py:437-446 | of an object read from a file only its strings can make a later round trip lossy |
| Rereads.WrittenParses | src/piloci/installer.py:42-53 | what a merge or removal wrote is read back as the object with its strings trimmed, and is well formed |
| Rereads.RereadShrinks | src/piloci/installer.py:52 | a rewrite keeps an object whose strings and keys have no comma before a closing bracket, and makes any other one shorter |
| Rereads.RereadPut | src/piloci/installer.py:452-456 | storing a value and rewriting is rewriting and storing the rewritten value, for keys without brackets, also when other keys come together |
| Rereads.RereadUntagged | src/piloci/installer.py:295 | a rewrite never turns a user's entry into one of piLoci's |
| Edits.EditedReread | src/piloci/installer.py:437-458 | an install step and a rewrite commute on an undoable object |
| Edits.EditedTwice | src/piloci/installer.py:437-458 | a later step on the same client replaces what an earlier one made |
| Edits.OpenCodeWritten | src/piloci/installer.py:351-358 | an OpenCode step sets its entry, adds the schema only where there is none, and changes nothing else |
| Edits.RemovedExactly | src/piloci/installer.py:466-483 | removal after any one step always finds piLoci's part, and gives the object back if and only if it was undoable |
| Edits.HeldRemoved | src/piloci/installer.py:466-483 | removal always finds what an installation left, and leaves an undoable object |
| Edits.RemovedTwice | src/piloci/installer.py:672-739 | a second removal finds nothing |
| InstallRuns.SurgeryQuiet | src/piloci/installer.py:672-739 | what a removal wrote, read back, gives another removal nothing to take; and a removal that writes changes the text |
| InstallRuns.QuietMeaning | src/piloci/installer.py:691-739 | removal leaves a JSON config alone exactly when it holds no piLoci entry |
| InstallRuns.BackupAfterRun | src/piloci/installer.py:448-450 | after any installations the backup is what the first that touched the config found, behind its sweep; no later one changes it |
| InstallRuns.RestoreGivesBack | src/piloci/installer.py:783-794 | after any installations restoring gives back the text of a config with any content if and only if it is not swept or the sweep has nothing to take from it, and its bytes if and only if they hold no carriage return either |
| InstallRuns.CarriageReturnLost | src/piloci/installer.py:448-450 | a config of three characters whose bytes do not come back |
| InstallRuns.SecondInstallBacksUp | src/piloci/installer.py:448-450 | for a config that did not exist, the next installation that touches it backs up what it finds of the first one's output |
| InstallRuns.EmptySettingsBackedUp | src/piloci/installer.py:280-282 | for Claude Code's settings that is an empty object |
| InstallRuns.NeverLost | src/piloci/installer.py:783-851 | over every interleaving of installs, restores and uninstalls, the text of a config free of piLoci's parts is in its backup or in the config |
| InstallRuns.ResetGivesBack | src/piloci/installer.py:783-851 | after any such history, restoring, or uninstalling with restore, gives the text back and leaves no backup |
| InstallRuns.ReinstalledAfterReset | src/piloci/installer.py:783-794 | installing again after that does to config and backup what it would have done at the very beginning |
| InstallRuns.UninstallRestores | src/piloci/installer.py:797-843 | after any installations, uninstalling with restore leaves a config free of piLoci's parts as it was: as text always, byte for byte if and only if no step touched it or it held no carriage return |
| ConfigRuns.HistoryText | src/piloci/installer.py:937-983 | a JSON config after any installations is the printing of the object that sweeps and last steps make of the original, through all the printing and reading in between |
| ConfigRuns.LastInstallation | src/piloci/installer.py:937-983 | that object in terms of the last installation that touched the config: what its last step makes of the start, without piLoci's parts again if a swept client's config saw another installation |
| ConfigRuns.FoundIsStart | src/piloci/installer.py:937-983 | what an installation finds in a swept config: the object without piLoci's parts, the same at every later one |
| ConfigRuns.RunIsLastStep | src/piloci/installer.py:937-983 | a history leaves what its last step makes of the start if and only if the client is not swept or no installation without a step on it followed; the start is the original object if the client is not swept or the object was undoable |
| ConfigTexts.LayoutEdited | src/piloci/installer.py:437-458 | a step on an object in any layout, comments and last commas included, edits that very object, backs up its text and sets nothing aside |
| ConfigTexts.CorruptAfter | src/piloci/installer.py:437-446 | after any installations the corrupt copy holds what an unreadable config held if one touched it, and otherwise is what it was |
| ConfigTexts.OneIsNotRestored | src/piloci/installer.py:757-794 | every config but ~/.claude.json is restored from its backup |
| Uninstall.SchemaStays | src/piloci/installer.py:351-356 | the schema key an OpenCode install adds is never taken out again |
| Uninstall.ClearedIsUndoable | src/piloci/installer.py:797-843 | clearing a config an installation wrote leaves an undoable object, whatever it held at first |
| Uninstall.UninstallUndoes | src/piloci/installer.py:797-843 | after any installations, on a config with any content, uninstalling without restore leaves the printing of the very object it held if and only if that was undoable and no string or key in it has a comma before a closing bracket |
| CodexRuns.CleanedReturns | src/piloci/installer.py:661-663 | editing the user's part introduces no carriage return |
| CodexRuns.RunIsHistory | src/piloci/installer.py:608-669 | any installations make of the Codex config the install history of its own blocks |
| CodexRuns.CodexUninstalled | src/piloci/installer.py:797-843 | after any installations, uninstalling without restore leaves exactly the user's part and one line feed if and only if that part holds no begin marker, as when every begin marker had its end marker |
| Sse.DispatchSseBlock | web/lib/api.ts:96-130 | the callbacks of one block |
| Sse.ChatStream | web/lib/api.ts:70-93 | the callbacks of a stream depend on its text only, never on how it was cut into chunks |
| Sse.SplitAppend | web/lib/api.ts:76-87 | splitting more text is splitting the buffered rest together with it, also when a chunk ends inside the separator |
| Sse.SplitMeaning | web/lib/api.ts:82-86 | blocks and rest put together again are the text, and no block holds or touches a further separator |
| Sse.SplitUnique | web/lib/api.ts:82-86 | it is the only such reading of the text |
| SseMeaning.LinesAre | web/lib/api.ts:99 | the lines of a block joined by line feeds are the block, and none holds one |
| SseMeaning.JsTrimIs | web/lib/api.ts:101 | trimming takes the white space at both ends and nothing else |
| SseMeaning.FieldsAre | web/lib/api.ts:97-105 | a block's data are the values of all its data lines in order, its event that of its last event line |
| SseMeaning.DeliverIs | web/lib/api.ts:106-130 | what each event fires, for data that are JSON and for data that are not |
| SseMeaning.NumberTruthy | web/lib/api.ts:118 | a number counts as a token text unless it is zero |
| SseMeaning.ClosedByEnd | web/lib/api.ts:88-93 | wherever a stream breaks off, its end closes the unfinished block exactly as a separator would |
| SseRoundTrip.ServeSse | src/piloci/api/routes.py:3174-3190 | the generator yields the citation frame, a frame per token, then done or an error |
| SseRoundTrip.PrintedData | src/piloci/api/routes.py:3176 | printed JSON has no line feed and no white space in front, and parses back |
| SseRoundTrip.FrameFirst | src/piloci/api/routes.py:3185 | a frame in front of any text is delivered as its event and data, and the rest as if it stood alone |
| SseRoundTrip.StreamRoundTrip | src/piloci/api/routes.py:3174-3190 | the callbacks of the whole response are the citation list, each non-empty token text in order, the error if generation failed, and done once |
| SseRoundTrip.Chat | web/lib/api.ts:74-93 | the same for client and server together under any chunking |
| Numerals.DecimalInjective | src/piloci/api/data_portability.py:333 | different numbers are written differently |
| Numerals.DecimalMeaning | src/piloci/api/data_portability.py:333 | the digits written stand for the number, without leading zeros |
| Slugs.SlugKept | src/piloci/api/data_portability.py:261-270 | a slug in that form is accepted as it is |
| Slugs.CandidateInjective | src/piloci/api/data_portability.py:329-333 | no candidate is tried twice |
| Slugs.TriedBound | src/piloci/api/data_portability.py:331-333 | a set of taken slugs can hold no more first candidates than it has members: the loop's measure |
| Slugs.FirstFree | src/piloci/api/data_portability.py:325-334 | the candidate found is free and all before it are taken |
| Slugs.NextFreeSlug | src/piloci/api/data_portability.py:325-334 | the loop ends for every finite set with that candidate, and reports a rename exactly when it differs from the base |
| Slugs.ThirdCandidate | src/piloci/api/data_portability.py:325-334 | with notes and notes-imported taken the next slug is notes-imported-2 |
| ArchiveImport.PlanProjects | src/piloci/api/data_portability.py:394-425 | the loop over the entries: rows, id map, rename count |
| ArchiveImport.PlanKeepsUnique | src/piloci/api/data_portability.py:400-425 | the planned rows keep slugs unique among the user's projects |
| ArchiveImport.ImportsKeepSlugs | src/piloci/api/data_portability.py:394-431 | over any run of imports by any users slugs stay unique per user and existing projects stay as they are |
| ArchiveImport.LandingMeaning | src/piloci/api/data_portability.py:440-463 | a project receives exactly the rows bound for it, each once, in archive order |
| ArchiveImport.GroupMemories | src/piloci/api/data_portability.py:436-463 | the dict of batches holds every project's rows, as many as land in all |
| ArchiveImport.Database.SaveGroups | src/piloci/api/data_portability.py:465-470 | every batch is appended to its project once; the count is the number saved |
| ArchiveImport.Database.SaveProfiles | src/piloci/api/data_portability.py:475-499 | the profiles are upserted under the translated ids, one by one |
| ArchiveImport.Database.ImportArchive | src/piloci/api/data_portability.py:363-507 | the whole import: what is refused changes nothing; otherwise projects, memories, profiles and all five counts |
| ImportOutcomes.OutcomeIs | src/piloci/api/data_portability.py:363-389 | from the archive alone: imported if and only if version, both lists and model or permission are right, re-embedded if and only if model or size differ; which of 400, 409 or a JSON error every other archive gets, all contents unchanged |
| ImportOutcomes.AcceptedIff | src/piloci/api/data_portability.py:400-407 | which entries of projects.json become projects, and with what |
| ImportOutcomes.RenamesCounted | src/piloci/api/data_portability.py:408-410 | one row for each of them, and as many renames as rows with another slug than asked for |
| ImportOutcomes.AttachedIff | src/piloci/api/data_portability.py:475-484 | which entries of profiles.json become profiles, and whose |
| ArchiveExport.BuildMemoryColumns | src/piloci/api/data_portability.py:185-194 | the column lists hold the user's rows of the listed projects in table order |
| ArchiveExport.ExportReadBack | src/piloci/api/data_portability.py:225-226 | projects.json and profiles.json are read back as they were written |
| ArchiveExport.CoerceTwice | src/piloci/api/data_portability.py:146-162 | coercing metadata is idempotent, keeps its meaning, and changes nothing exactly when the text was dumped from a dict |
| ArchiveExport.ConvertMeaning | src/piloci/api/data_portability.py:445-463 | which rows are of use, and that content, tags and the meaning of the metadata are kept, the vector replaced only by a re-embedding import |
| ArchiveRoundTrip.PlanRebuilds | src/piloci/api/data_portability.py:400-425 | importing exported projects keeps every slug, with no rename and none left out |
| ArchiveRoundTrip.SlugSurvives | src/piloci/api/data_portability.py:404-408 | a slug that comes out of an import as it went in had the slug form |
| ArchiveRoundTrip.RebuiltImportable | src/piloci/api/data_portability.py:400-425 | if all rows are rebuilt, every slug and name was acceptable |
| ArchiveRoundTrip.TranslateBijective | src/piloci/api/data_portability.py:413 | the id map is a bijection from the old ids to the new ones |
| ArchiveRoundTrip.ExportLands | src/piloci/api/data_portability.py:440-463 | a project's exported memories land in its copy in order, except those whose vectors have another size |
| ArchiveRoundTrip.CarriedWhole | src/piloci/api/data_portability.py:451-453 | all of them arrive if and only if all vectors have the full size |
| ArchiveRoundTrip.CanonicalAlready | src/piloci/api/data_portability.py:146-162 | memories keep their metadata text if and only if it was dumped from dicts |
| ArchiveRoundTrip.ProfilesCarried | src/piloci/api/data_portability.py:476-499 | each project's profile arrives at its copy |
| ArchiveRoundTrip.RoundTrip | src/piloci/api/data_portability.py:363-507 | importing a user's export into an account without projects, same embed model, rebuilds the account if and only if slugs and names are acceptable and vectors full size |
| ArchiveRoundTrip.RoundTripReport | src/piloci/api/data_portability.py:501-507 | the summary then counts every project and every row and no rename |
| Consolidate.BuildPlan | scripts/migrate_consolidate_projects.py:90-107 | the loop's merges and deletes are the projects' fates |
| Routing.NormalizedIs | scripts/migrate_consolidate_projects.py:59 | the path that is looked at: both slashes the same, those at the end dropped |
| Routing.RoutedExactly | scripts/migrate_consolidate_projects.py:55-81 | for every directory, when it goes to junk, to each of the five roots, and when it stands alone, in terms of the parts of its path |
| Routing.SurvivorIs | scripts/migrate_consolidate_projects.py:88 | the project at a root is the last one whose path is that root |
| Routing.FateIs | scripts/migrate_consolidate_projects.py:94-107 | what becomes of a project, by its destination and the project at that root |
| Consolidate.RootRoutes | scripts/migrate_consolidate_projects.py:55-81 | a canonical root routes to itself or stands alone, through all the prefixes |
| Consolidate.SurvivorKept | scripts/migrate_consolidate_projects.py:94-107 | what a project is merged into is neither merged nor deleted |
| Consolidate.MergesAre | scripts/migrate_consolidate_projects.py:106-107 | a merge is planned exactly for the projects with that fate |
| Consolidate.DeletesAre | scripts/migrate_consolidate_projects.py:98-100 | a deletion is planned exactly for the projects with that fate |
| Consolidate.PlanIsSound | scripts/migrate_consolidate_projects.py:90-107 | every plan has distinct absorbed ids, no chains, and never absorbs or deletes a survivor |
| ConsolidateRun.MergedProfile | scripts/migrate_consolidate_projects.py:145-151 | one merge of profiles: the survivor's own wins, else the absorbed one moves |
| ConsolidateRun.MovedRow | scripts/migrate_consolidate_projects.py:150-151 | re-pointing merge by merge is re-pointing all at once |
| ConsolidateRun.TableAfter | scripts/migrate_consolidate_projects.py:144-155 | what both loops of statements leave of a table |
| ConsolidateRun.PlacedMeaning | scripts/migrate_consolidate_projects.py:144-155 | exactly the rows of no junk project stay, once, in order and with their keys; a row of an absorbed project is its survivor's, every other row is unchanged |
| ConsolidateRun.RowsConserved | scripts/migrate_consolidate_projects.py:144-155 | only junk projects' rows are lost, and no remaining row names a removed project |
| ConsolidateRun.MergedProfiles | scripts/migrate_consolidate_projects.py:144-151 | a survivor's profile is the first in its group, its own first; it exists exactly when a member had one |
| ConsolidateRun.DroppedProfiles | scripts/migrate_consolidate_projects.py:153-155 | junk projects lose their profiles and no others do |
| ConsolidateDb.StampsKeep | scripts/migrate_consolidate_projects.py:160-166 | accepted re-stamps keep ids, owners and slug uniqueness |
| ConsolidateDb.StampsApplied | scripts/migrate_consolidate_projects.py:160-166 | every row carries the last stamp given to it or is untouched |
| ConsolidateDb.RemainingAreKept | scripts/migrate_consolidate_projects.py:157-158 | the rows left are exactly the projects the plan keeps |
| ConsolidateDb.GoneIsNotKept | scripts/migrate_consolidate_projects.py:157 | a project is removed exactly when its fate is not to be kept |
| ConsolidateDb.Database.MoveTable | scripts/migrate_consolidate_projects.py:178-181 | the two loops over one table |
| ConsolidateDb.Database.MoveProfileTable | scripts/migrate_consolidate_projects.py:144-155 | the profile statements never meet their primary key; every profile afterwards |
| ConsolidateDb.Database.Migrate | scripts/migrate_consolidate_projects.py:141-182 | the whole execution, all or nothing: every table afterwards |
| ConsolidateDb.TablesConserved | scripts/migrate_consolidate_projects.py:141-182 | in each table only junk rows are lost and every row of a known project names a kept one |
| ConsolidateLimits.OwnersKept | scripts/migrate_consolidate_projects.py:88-107 | every merge stays with one user if and only if all projects routed to a root that has a survivor are its owner's |
| ConsolidateLimits.AnnsRowsBecomeBobs | scripts/migrate_consolidate_projects.py:88-107 | two users' checkouts of one repository: one user's rows move to the other's project |
| ConsolidateLimits.RefusedIff | scripts/migrate_consolidate_projects.py:160-166 | the migration is refused if and only if a kept project of a survivor's owner, other than the survivor and not re-stamped before, holds the slug the survivor is to get |
| ConsolidateLimits.ClashFromStart | scripts/migrate_consolidate_projects.py:160-166 | what one re-stamp meets, said of the table before all of them |
| Pairing.StepKeeps | src/piloci/auth/install_pairing.py:53-96 | every create, consumer step, failure and clock tick keeps the invariant |
| Pairing.RunKeeps | src/piloci/auth/install_pairing.py:53-96 | it holds in every state of every interleaving |
| Pairing.SingleUse | src/piloci/auth/install_pairing.py:64-86 | at most one consumer ever gets a payload for a code, and it is the one stored for it |
| Pairing.NeverExpired | src/piloci/auth/install_pairing.py:57-61 | a payload is handed over only less than 600 seconds after creation |
| Pairing.GoneForGood | src/piloci/auth/install_pairing.py:73-86 | a code Redis no longer has never comes back |
| Pairing.FirstConsumerGets | src/piloci/auth/install_pairing.py:64-96 | the first consumer whose call takes the key and is answered gets the payload within 600 seconds of its creation, and nothing later |
| PairingStore.PayloadDecodes | src/piloci/auth/install_pairing.py:90-96 | the stored payload decodes to the token and URL it was made from |
| PairingStore.Store.Create | src/piloci/auth/install_pairing.py:53-62 | what is stored under the code and until when |
| PairingStore.Store.Take | src/piloci/auth/install_pairing.py:82-86 | a read-and-delete returns the live payload and leaves no key |
| PairingStore.Store.Consume | src/piloci/auth/install_pairing.py:64-96 | result and key on every path: GETDEL and the transaction behind it may each fail before or after taking effect |
| PairingStore.Store.CreateAndConsume | src/piloci/auth/install_pairing.py:53-96 | of two consumers, some seconds apart, exactly which one gets the grant, however their calls fail, within 600 seconds and never both |
| Resolve.WorktreeCollapses | src/piloci/api/routes.py:681-689 | a directory inside a subagent worktree, with any separators, is normalised to the repository that owns it |
| Resolve.WorktreeElse | src/piloci/api/routes.py:685-689 | any other directory is left as it is, and normalising twice is normalising once |
| Resolve.Projects.TryInsert | src/piloci/api/routes.py:734-744 | an insert succeeds exactly when the user's slug is free |
| Resolve.Projects.ResolveOrCreate | src/piloci/api/routes.py:662-745 | answer and table of one request |
| Resolve.StepKeeps | src/piloci/api/routes.py:662-745 | (user, slug) and (user, directory) stay unique; no row goes and no directory that is set changes |
| Resolve.StepAnswers | src/piloci/api/routes.py:694-737 | a resolved request answers with the user's row at the normalised directory; otherwise nothing changes |
| Resolve.StepEffect | src/piloci/api/routes.py:662-745 | told from the rows: the row at the directory is answered, else a directory-less row with the plain slug is claimed, else a row is added under the plain slug unless a row of the user holds it and then under the suffixed one, else nothing |
| Resolve.CollisionIff | src/piloci/api/routes.py:719-745 | a request fails exactly when both its slugs are taken and no row can be found or claimed |
| Resolve.SameProjectIffSameDirectory | src/piloci/api/routes.py:662-745 | over any run two resolved requests of a user get the same project if and only if their worktree-normalised directories are equal |
| Resolve.CreateKeeps | src/piloci/main.py:124-222 | the tool's own create keeps slugs unique and directories that are set |
| Resolve.CreateAnswers | src/piloci/main.py:124-222 | which row it answers with, and that it fails only if the slug is elsewhere and the suffixed one is taken or there is no directory |
| Resolve.CreateTwice | src/piloci/main.py:124-222 | asking again gives the same answer and changes nothing if and only if the slug did not belong to another directory; otherwise it fails |
| ProjectsCache.CopyAll | src/piloci/main.py:50 | copies are fresh objects with the same fields |
| ProjectsCache.Cache.Get | src/piloci/main.py:43-50 | a live entry is returned in fresh dicts; an expired one is dropped |
| ProjectsCache.Cache.Set | src/piloci/main.py:52-58 | the list is stored and returned in separate copies |
| ProjectsCache.Cache.Invalidate | src/piloci/main.py:60-61 | one user's entry goes, the others stay |
| ProjectsCache.ProjectsFn | src/piloci/main.py:96-117 | cached list if it may be used, else the database's, cached from now on; what is returned is never the cache's own object |
| ProjectsCache.ScribbleOn | src/piloci/main.py:50-58 | changing the fields of any returned dict changes nothing the cache holds |
| ProjectsCache.ScribbledListIsNotServed | src/piloci/main.py:43-50 | a list handed out, overwritten by its receiver and asked for again is served as it was |
| Staleness.StepKeeps | src/piloci/main.py:96-117 | every interleaved read, store, invalidation, database change and clock step keeps the invariant |
| Staleness.FetchSawDatabase | src/piloci/main.py:101-106 | every fetch on record saw the database of some earlier state |
| Staleness.BoundedStaleness | src/piloci/main.py:96-117 | every list returned was the database's in an earlier state; a cached one was stamped less than the lifetime ago, a fetched one was read after its own call began |
| ContextPack.TruncateMeaning | src/piloci/chat.py:40-44 | the stripped text if it is not over the limit, otherwise exactly its first limit characters without the white space at their end, and an ellipsis |
| ContextPack.FormatCitations | src/piloci/chat.py:103-116 | citation N names memory N with its truncated content |
| ContextPack.PackContext | src/piloci/chat.py:47-76 | the context is the greedy prefix of the blocks of the memories that are not blank, and no longer than the budget less two or its first block |
| ContextPack.BlocksAre | src/piloci/chat.py:65-74 | a block is listed exactly for each memory that is not blank |
| ContextPack.BlocksInOrder | src/piloci/chat.py:65-74 | the blocks are those of exactly the memories that are not blank, each once and in their order |
| ContextPack.JoinedAt | src/piloci/chat.py:76 | every block stands whole in the context, in order, with a blank line behind all but the last |
| ContextPack.LengthBound | src/piloci/chat.py:70-76 | the context is at most the budget less two, or its first block |
| ContextPack.GreedyUnique | src/piloci/chat.py:72-75 | there is only one such prefix |
| ContextPack.LabelNamesMemory | src/piloci/chat.py:65-69 | a block whose label is citation N's is the block of memory N, even when blanks are skipped |
| Admin.Board.RequireAdmin | src/piloci/api/routes.py:367-371 | who may act: the session's user, active, approved and administrator in the database now |
| Admin.Board.InvalidateSessions | src/piloci/api/routes.py:3498-3504 | all sessions of a user go, or none when the store cannot be reached |
| Admin.Board.ToggleAdminOf | src/piloci/api/routes.py:3507-3531 | reply and state of one request |
| Admin.Board.ToggleActiveOf | src/piloci/api/routes.py:3534-3560 | reply and state of one request |
| Admin.Board.DeleteUser | src/piloci/api/routes.py:3563-3587 | reply and state of one request |
| Admin.Board.ReviewUser | src/piloci/api/routes.py:3454-3484 | reply and state of a rejection or approval |
| Admin.OnlyAdminsAct | src/piloci/api/routes.py:3507-3587 | an effect needs a usable administrator at that moment, touches one account only, and ends its sessions if the store is reached |
| Admin.Replies | src/piloci/api/routes.py:3507-3587 | who is answered what, in the order of the checks |
| Admin.ActionEffect | src/piloci/api/routes.py:3454-3587 | what an action makes of the account field by field, of the audit log and of the sessions; only a deletion removes it |
| Admin.ApprovalOpens | src/piloci/api/routes.py:3454-3484 | an approved account can log in, a rejected one cannot, and an approved active administrator can act |
| Admin.NoLongerActs | src/piloci/api/routes.py:3507-3587 | whoever was deleted, rejected, demoted or deactivated cannot act with any cookie, even if their sessions could not be ended |
| Admin.TogglesUndo | src/piloci/api/routes.py:3507-3560 | toggling twice restores the user except the lock and the failed logins, and is audited twice |
| Admin.AlwaysAdmin | src/piloci/api/routes.py:3507-3587 | in every reachable state with users there is an administrator, whether or not sessions could be invalidated |
| Admin.LastUsableLost | src/piloci/api/routes.py:3454-3484 | a step leaves no usable administrator if and only if the only one rejects their own account |
| Admin.LockedOut | src/piloci/api/routes.py:367-371 | once that has happened no later state has a usable administrator |
| Admin.SelfRejectionRuns | src/piloci/api/routes.py:3454-3484 | signing up, logging in and rejecting oneself is a run from the empty server |
| Admin.SelfRejection | src/piloci/api/routes.py:3454-3484 | after those three events of a run no later state has a usable administrator |
| Ingest.Sessions.IngestSessions | src/piloci/api/routes.py:2816-2889 | table and counts of one request; queued and skipped add up to the batch |
| Ingest.BatchIs | src/piloci/api/routes.py:2816-2822 | a request's first fifty entries are looked at |
| Ingest.StoredIff | src/piloci/api/routes.py:2822-2870 | the table then holds what it held and exactly the rows of entries with an id, a transcript and one worth keeping, under the first 200 characters of the id |
| Ingest.Replay | src/piloci/api/routes.py:2822-2841 | sending a batch again queues exactly its good entries with ids over 200 characters |
| Ingest.ReplayIsIdentity | src/piloci/api/routes.py:2822-2841 | a replay changes nothing if and only if there is no such entry |
| Ingest.StoredTwice | src/piloci/api/routes.py:2822-2841 | one session with an id of 201 characters, sent twice, is stored twice |
| Ingest.StaysUnique | src/piloci/api/routes.py:2829-2870 | without such entries no session is stored twice |

## Left out

- ConfigRuns.HistoryText: is about objects without a comma before a closing bracket in their strings and keys; what each rewrite makes of other objects is Rereads.WrittenParses, and uninstalling them is covered by Uninstall.UninstallUndoes.
- Resolve.CreateKeeps: does not keep (user, directory) unique, because the tool creates a second project for a directory when it is asked for another slug.
- Steps are those of the chosen clients that succeeded; the entries they add are values without a comma before a closing bracket.
- ArchiveRoundTrip.RoundTrip: timestamps, memory ids, memory_count and bytes_used are not carried by the import and not modelled.
- JSON numbers are kept as the text they are printed as: NaN, Infinity and re-formatting of numbers are not modelled, and JavaScript's underflow of tiny numbers to 0 is not either.
- Lone surrogates in strings and undecodable bytes; a config that cannot be decoded or nests too deep for Python's recursion limit.
- Permissions, downloads, plugin folders, the shared piLoci directory, client detection, hostnames, heartbeat and the printed reports of the installer.
- UTF-8 decoding of the response body: chunks are the decoded text that TextDecoder hands out. Failed responses and aborted reads.
- Zip, Parquet and checksum encoding of the archive, null columns, the manifest beyond its three fields that are read, and identifiers the store refuses.
- LanceDB returns rows in insertion order, and projects are exported in table order; both are taken for granted.
- A crash of the import or of the migration between its SQLite commit and its LanceDB writes.
- cwd_to_slug, _is_home_or_root, the hash suffix and its cut to 50 characters, embeddings and the transcript prefilter are parameters, any function.
- Two requests that create projects for one directory at the same time; handlers are atomic steps. The v1 create_project_fn, which does not stamp a claimed row.
- API tokens and OAuth sign-up as other ways to become a user or act as one; request parsing, cookies, password and TOTP checks.
- The backlog ceiling after an ingest only archives rows and is not modelled; items that are not objects fail the request.
- The administrator's email and the review columns of a user, login counters other than the two that toggling resets.
- React components, the REST client, LLM providers, the curator, the scheduler, team and device-pairing routes: not part of this model, being thin wrappers or of no state of their own.
