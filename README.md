# EverydayGit, modelled in Dafny

EverydayGit is a desktop front-end for git. Its Rust back end runs `git` and `gh` and parses
what they print, and its React front end turns the results into lists, labels, previews and
stores. This project models the parts of both that decide something:

- the back end's parsers of git output: conflict markers, worktree listings, porcelain status,
  shortstat lines, log records, `ls-files -u` and `merge-tree` output, version banners;
- the back end's decision rules: merge guards and outcomes, branch and reset commands,
  repository initialisation, the repository slot of the command layer, the AI model allowlists
  and the configuration and secrets stores;
- the front end's conflict resolver (the resolved file and the preview), the tab store, the
  recent-repositories list, branch search and the branch selector, merge metrics, git-error
  toasts, the phone formatter, the worktree-in-use parser and the diff-file helpers.

Every process call, file, clock reading and random id is an input: a `ProcessOutput` record
(exit status, stdout, stderr), a total function from argument lists to such records, a flag such
as "`.git/MERGE_HEAD` exists", or an in-memory store. Loops of the source are methods proved
against specification functions; objects whose fields the source updates are classes; the rest
are functions and lemmas. Strings are sequences of characters and are ASCII-only where letter case
or whitespace matters. Integer widths are explicit where the source parses into `u32` or `usize`.

One module per source file: `GitConflicts`, `GitWorktrees`, `GitStatus`, `GitHistory`,
`GitMerge`, `GitRepository` (all from `src-tauri/src/git/mod.rs`), `Commands`, `Config`, `Ai`,
`Setup`, `Resolution`, `ConflictPreview`, `Tabs`, `RecentRepos`, `BranchSearch`,
`MergeMetrics`, `BranchControls`, `GitErrors`, `Phone`, `BranchInUse` and `DiffFiles`. Shared
helpers are in `Strings` (the Rust and JavaScript string primitives used), `Seqs` (filter),
`Paths` (the last path segment), `GitTypes` (shared records) and `Wrappers` (Option and Result).

## Model

| member | source | states |
|---|---|---|
| GitConflicts.ParseConflictFile | src-tauri/src/git/mod.rs:1440-1537 | An unreadable file is the error "Failed to read <path>". Invalid UTF-8 is binary, with no hunks and empty content. Any other file keeps its text verbatim, is not binary and gets the hunks of the line scan. |
| GitConflicts.Scan | src-tauri/src/git/mod.rs:1468-1529 | After any prefix of the lines, the next id equals the number of hunks emitted. An open block's start line is its opener's index plus one. |
| GitConflicts.StepOpen | src-tauri/src/git/mod.rs:1471-1478 | An opening marker enters the ours side and records the 1-based start line and the label. It does not clear the text already gathered. |
| GitConflicts.StepSeparator | src-tauri/src/git/mod.rs:1480-1484 | A line starting with `=======` switches to the theirs side, even outside a block. |
| GitConflicts.StepClose | src-tauri/src/git/mod.rs:1486-1520 | A closing marker emits a hunk with the next id, then clears both sides and leaves the block. |
| GitConflicts.ClosingHunk | src-tauri/src/git/mod.rs:1487-1511 | The loop's slicing builds the same hunk as the scanner's `CloseHunk`. That hunk has the current id, both sides' text and both labels, and runs from the start line to the closer's 1-based line. Its context is at most three lines before the opener, saturating at the file start, and at most three after the closer, clipped at the end. |
| GitConflicts.StepText | src-tauri/src/git/mod.rs:1522-1528 | Any other line is appended, with "\n", to the side being read, or ignored outside a block. |
| GitConflicts.ContextBefore | src-tauri/src/git/mod.rs:1488-1493 | At most three lines of context before the opener. |
| GitConflicts.ContextAfter | src-tauri/src/git/mod.rs:1494-1499 | At most three lines of context after the closer, cut at the end of the file. |
| GitConflicts.HunksShapes | src-tauri/src/git/mod.rs:1468-1520 | One hunk per closing marker. The k-th hunk has id k and lies within the file, and hunks come in file order. |
| GitConflicts.ScanHunkShapes | src-tauri/src/git/mod.rs:1486-1520 | Every hunk emitted by the scan has its index as id and line numbers inside the lines read. |
| GitConflicts.ScanOrdered | src-tauri/src/git/mod.rs:1486-1520 | Hunks are emitted in increasing line order. |
| GitConflicts.ScanCountsClosers | src-tauri/src/git/mod.rs:1486-1520 | The number of hunks is the number of lines starting with `>>>>>>>`. |
| GitConflicts.CrlfSameHunks | src-tauri/src/git/mod.rs:1455 | A file with `\r\n` line endings has the same hunks as the same lines ended by `\n`. |
| GitConflicts.MissingFinalBreakSameHunks | src-tauri/src/git/mod.rs:1455 | A non-empty last line without its `\n` gives the same hunks as with it. |
| Strings.LinesUnlinesCrlf | src-tauri/src/git/mod.rs:1455 | `lines()` reads a `\r\n`-ended text back as its lines, without the `\r`. |
| Strings.LinesWithoutFinalBreak | src-tauri/src/git/mod.rs:1455 | A last piece without `\n` is one more line, and an empty one adds none. |
| GitConflicts.NoClosersNoHunks | src-tauri/src/git/mod.rs:1486-1520 | A file without closing markers has no hunks. |
| GitConflicts.StrayCloserMakesHunk | src-tauri/src/git/mod.rs:1486-1488 | A closer without an opener still emits a hunk, with the stale start line 0 and empty sides. |
| GitConflicts.OpenerKeepsText | src-tauri/src/git/mod.rs:1514-1518 | A second opener keeps both sides' text: they are cleared only after a close. |
| GitConflicts.OpenLabel | src-tauri/src/git/mod.rs:1471-1478 | The ours label is the opener with its `<` run and surrounding blanks removed. |
| GitConflicts.CloseLabel | src-tauri/src/git/mod.rs:1486-1520 | The theirs label is the closer with its `>` run and surrounding blanks removed. |
| GitConflicts.ParseWellFormed | src-tauri/src/git/mod.rs:1468-1529 | For text made of plain lines and well-formed marker blocks, the hunks are exactly the expected ones: ids 0, 1, 2… in file order, each side's lines followed by "\n", labels, 1-based marker lines and three-line contexts. |
| GitConflicts.ParseExample | src-tauri/src/git/mod.rs:1471-1528 | The HEAD/feature example gives ours "foo\n", theirs "bar\n", labels HEAD and feature, and lines 1 to 5. |
| GitWorktrees.GetWorktrees | src-tauri/src/git/mod.rs:815-885 | A failed listing is the error "Git worktree list failed: <stderr>". Otherwise the result is the parse of the porcelain listing. |
| GitWorktrees.ParseMainFirst | src-tauri/src/git/mod.rs:835-884 | Exactly the first emitted worktree is marked main. |
| GitWorktrees.ParseBoundedByPaths | src-tauri/src/git/mod.rs:835-884 | No more worktrees are emitted than there are `worktree` lines. |
| GitWorktrees.ReadEntry | src-tauri/src/git/mod.rs:835-884 | One record of the listing emits its worktree with its path and either the branch name without `refs/heads/` or "(detached <7 chars>)". A bare record emits nothing. |
| GitWorktrees.ParseListing | src-tauri/src/git/mod.rs:835-884 | Parsing the listing of well-formed records gives back their worktrees in order, with only the first marked main. |
| GitWorktrees.BranchBeforeHeadKept | src-tauri/src/git/mod.rs:848-861 | A `HEAD` line after a `branch` line does not replace the branch. |
| GitWorktrees.RepeatedKeywordStripped | src-tauri/src/git/mod.rs:836-847 | The `worktree ` keyword is stripped repeatedly, as `trim_start_matches` does. |
| GitStatus.GetStatus | src-tauri/src/git/mod.rs:156-231 | A failed status is "Git command failed: <stderr>". Otherwise it is `ParseStatus` of the porcelain output, the reader as written: files, branch, the ahead count up to the next `]` and the behind count. |
| GitStatus.ClassifyByColumns | src-tauri/src/git/mod.rs:199-222 | A known code is named after the letter of its first non-blank column. It is staged exactly when that letter is in the index column and is not `?`. |
| GitStatus.KnownCodes | src-tauri/src/git/mod.rs:203-214 | Exactly ten two-letter codes are known; every other code is Unknown. |
| GitStatus.StatusFiles | src-tauri/src/git/mod.rs:199-222 | The files are one entry per non-`##` line, in order. |
| GitStatus.StatusWithoutBranchLine | src-tauri/src/git/mod.rs:170-176 | Without a `##` line the branch is "unknown" and ahead and behind are 0. |
| GitStatus.HeaderAhead | src-tauri/src/git/mod.rs:185-191 | The corrected ahead reader finds the count whether or not a behind count follows it. |
| GitStatus.HeaderAheadAsWritten | src-tauri/src/git/mod.rs:185-191 | As written, no ahead count keeps the old value, an ahead count alone reads back, and an ahead count followed by a behind count reads as 0. |
| GitStatus.HeaderBehind | src-tauri/src/git/mod.rs:192-198 | The behind count is read from the bracket, alone or after an ahead count. |
| GitStatus.InfoCounts | src-tauri/src/git/mod.rs:177-198 | For a branch line, the behind count is the one git printed. The ahead count as written is the printed one when no behind count follows it, and 0 when one does; the corrected reader always gets the printed one. A count git omits leaves the earlier value. |
| GitStatus.StatusHeader | src-tauri/src/git/mod.rs:156-231 | The parse as written of a branch line followed by file lines gives that branch, the printed behind count and the file entries. The ahead count is the printed one when the branch is not also behind, and 0 when it is. |
| GitStatus.StatusHeaderCorrected | src-tauri/src/git/mod.rs:156-231 | With the corrected ahead reader, the same output reads back as the branch, both printed counts and the file entries. |
| GitStatus.HeaderRead | src-tauri/src/git/mod.rs:177-198 | The branch line alone sets the branch, the behind count and the ahead count each reader gets. |
| GitStatus.AheadAsWrittenBoth | src-tauri/src/git/mod.rs:185-191 | As written, "[ahead a, behind b]" with both non-zero parses ahead as 0. |
| GitStatus.AheadAsWrittenWithoutBehind | src-tauri/src/git/mod.rs:185-191 | As written, "[ahead a]" alone parses correctly and agrees with the corrected reader. |
| GitHistory.ParseShortstatLine | src-tauri/src/git/mod.rs:1370-1394 | The loop over the comma parts computes the counts the specification function gives. |
| GitHistory.ShortstatRoundTrip | src-tauri/src/git/mod.rs:1370-1394 | Parsing the shortstat line git prints for (f, i, d) gives back (f, i, d). |
| GitHistory.FilesDefault | src-tauri/src/git/mod.rs:1370-1394 | With no parsable "file(s) changed" part, the file count is 0. |
| GitHistory.InsertionsDefault | src-tauri/src/git/mod.rs:1370-1394 | With no parsable insertion part, the insertion count is 0. |
| GitHistory.DeletionsDefault | src-tauri/src/git/mod.rs:1370-1394 | With no parsable deletion part, the deletion count is 0. |
| GitHistory.ReadSummary | src-tauri/src/git/mod.rs:644-666 | The loop over the parts of the first summary line sets the counts that parse as `u32`. |
| GitHistory.GetCommitShortstat | src-tauri/src/git/mod.rs:620-671 | A failed `git show` is an error with stderr. Otherwise the counts come from the first line naming changed files, and absent counts stay None. |
| GitHistory.CommitStatRoundTrip | src-tauri/src/git/mod.rs:644-668 | Output whose first summary line is git's shortstat for (f, i, d) gives exactly those three counts. |
| GitHistory.ReadLog | src-tauri/src/git/mod.rs:578-598 | The record loop computes the specification's commit list. |
| GitHistory.GetLog | src-tauri/src/git/mod.rs:559-599 | A failed log is "Git log failed: <stderr>". Otherwise the result is the commits read from the records. |
| GitHistory.LogRoundTrip | src-tauri/src/git/mod.rs:578-598 | Reading back the log text git prints for a list of commits gives that list. |
| GitHistory.RevListRoundTrip | src-tauri/src/git/mod.rs:1763-1770 | `rev-list --left-right --count` output "behind\tahead" gives (ahead, behind). |
| GitHistory.CompareBranches | src-tauri/src/git/mod.rs:1744-1824 | A failed rev-list is an error. Otherwise the counts come from it, the commits from a successful log (else none) and the diff summary from a successful diff (else ""). |
| GitMerge.StageFile | src-tauri/src/git/mod.rs:279-298 | During a merge the call is refused and nothing runs. Otherwise `git add <path>` runs, and its failure is reported with stderr. |
| GitMerge.StageAll | src-tauri/src/git/mod.rs:300-321 | During a merge the call is refused and nothing runs. Otherwise `git add -A` runs and its outcome is reported. |
| GitMerge.AmendCommit | src-tauri/src/git/mod.rs:357-379 | Refused during a merge. Otherwise it stages all, then amends, stopping at the first failure. |
| GitMerge.Insert | src-tauri/src/git/mod.rs:1430-1433 | Inserting into a strictly sorted list keeps it sorted and adds exactly that path. |
| GitMerge.SortedUnique | src-tauri/src/git/mod.rs:1430-1433 | Sort-then-dedup gives a strictly sorted list with the same members. |
| GitMerge.SortedListsAgree | src-tauri/src/git/mod.rs:1430-1433 | Two strictly sorted lists with the same members are equal, so the result is the unique sorted listing. |
| GitMerge.ConflictPathsListing | src-tauri/src/git/mod.rs:1409-1438 | The conflict paths are sorted and duplicate-free. A path is listed exactly when some `ls-files -u` line has it as its fourth field. |
| GitMerge.GetConflictFiles | src-tauri/src/git/mod.rs:1409-1438 | Without a merge the list is empty and nothing runs. Otherwise `ls-files -u` runs, its failure is an error, and success gives the sorted unique paths. |
| GitMerge.CompleteMerge | src-tauri/src/git/mod.rs:1565-1597 | Without a merge: "No merge in progress". With unresolved paths: "Unresolved conflicts: [...]". The commit runs exactly when the conflict list is empty. |
| GitMerge.ScanMergeTree | src-tauri/src/git/mod.rs:1650-1671 | The line loop computes the specification's conflict list. |
| GitMerge.TreeConflictsListing | src-tauri/src/git/mod.rs:1650-1671 | The list has no duplicates. A file is in it exactly when some line inside a "changed in both" section contains `<<<<<<<` with that file as the last named file. |
| GitMerge.NoSectionNoConflicts | src-tauri/src/git/mod.rs:1650-1671 | Output without a "changed in both" section lists no conflicts. |
| GitMerge.MergePreviewOf | src-tauri/src/git/mod.rs:1599-1681 | Fast-forward is the ancestry check. The counts come from the trimmed diff shortstat. Conflicts come from merge-tree when a merge base exists, and are duplicate-free. |
| GitMerge.Summary | src-tauri/src/git/mod.rs:1704-1710 | The summary is the trimmed stdout, or the trimmed stderr when stdout is blank. |
| GitMerge.MergeBranch | src-tauri/src/git/mod.rs:1683-1742 | A failed merge without MERGE_HEAD is an error. With MERGE_HEAD, the result is Ok with the conflict list. A clean merge lists conflicts only with MERGE_HEAD. Fast-forward is the ancestry check, and the calls run in that order. |
| GitRepository.ResetFlag | src-tauri/src/git/mod.rs:924-947 | soft, mixed, hard and keep (any case) map to their flags; anything else maps to --mixed. |
| GitRepository.ResetFlagCaseBlind | src-tauri/src/git/mod.rs:924-947 | The flag ignores the mode's letter case. |
| GitRepository.ResetFlagKnown | src-tauri/src/git/mod.rs:924-947 | The flag is always one of the four git reset modes. |
| GitRepository.Reset | src-tauri/src/git/mod.rs:924-947 | Runs one `git reset <flag> <commit>` and reports its failure with stderr. |
| GitRepository.LocalName | src-tauri/src/git/mod.rs:675-698 | A ref without `/` is kept. Otherwise the name is the part after the first `/`, a proper suffix. |
| GitRepository.LocalNameOfRef | src-tauri/src/git/mod.rs:675-698 | `remote/branch` with a slash-free remote gives `branch`. |
| GitRepository.CheckoutRemoteBranch | src-tauri/src/git/mod.rs:675-698 | Runs one `checkout -b <local> --track <ref>` and reports its failure. |
| GitRepository.CreateBranch | src-tauri/src/git/mod.rs:700-764 | Creates with `checkout -b` or `branch`. A creation failure stops there. The push runs only when asked, and succeeds only if both succeed. |
| GitRepository.RemoteAndBranch | src-tauri/src/git/mod.rs:766-808 | The name is split at its first `/` into two non-empty parts, or read as ("origin", name). |
| GitRepository.RemoteAndBranchOfRef | src-tauri/src/git/mod.rs:766-808 | `remote/branch` with a slash-free remote splits into (remote, branch). |
| GitRepository.RemoteAndBranchDefault | src-tauri/src/git/mod.rs:766-808 | A name with no usable split falls back to origin. |
| GitRepository.DeleteBranch | src-tauri/src/git/mod.rs:766-808 | Runs one delete command (local with -d or -D, or a remote push --delete) and reports which kind failed. |
| GitRepository.GitignoreTemplate | src-tauri/src/git/mod.rs:1263-1299 | A template exists exactly for the known names (trimmed, any case) and ends with a newline. |
| GitRepository.GitignoreNormalized | src-tauri/src/git/mod.rs:1263-1299 | The template name is trimmed and lowercased before lookup. |
| GitRepository.Description | src-tauri/src/git/mod.rs:1107-1111 | A description is used only when it is non-blank, and then trimmed. |
| GitRepository.ReadmeLines | src-tauri/src/git/mod.rs:1106-1116 | The README is "# name", then a blank line and the description when there is one. |
| GitRepository.InitialMessage | src-tauri/src/git/mod.rs:1162-1167 | The initial commit message is never empty; a blank one becomes "chore: init repo". |
| GitRepository.AddFilesSorts | src-tauri/src/git/mod.rs:1098-1146 | Each requested file is created if absent and skipped if present, in request order. |
| GitRepository.ReadmeWritten | src-tauri/src/git/mod.rs:1101-1119 | An absent README is written first, with the README text. |
| GitRepository.InitRejections | src-tauri/src/git/mod.rs:1064-1083 | The five rejections, in the source's order, each run nothing and write nothing. There is no rejection exactly when all five checks pass. |
| GitRepository.InitSuccess | src-tauri/src/git/mod.rs:1063-1187 | A successful init ran `git init` (then add and commit when asked) and reports exactly the files it created and skipped. |
| Commands.AppState.constructor | src-tauri/src/commands/mod.rs:12-14 | The slot starts empty. |
| Commands.AppState.RepoPath | src-tauri/src/commands/mod.rs:457-462 | The bound path, or "No repository selected". |
| Commands.AppState.SetRepository | src-tauri/src/commands/mod.rs:23-45 | A missing path or a non-directory is refused before any change. Otherwise the slot binds the path iff `.git` exists, then the last repository is saved; a failed save is still an error after the slot has changed. |
| Commands.AppState.InitRepositoryCmd | src-tauri/src/commands/mod.rs:48-57 | The slot binds the path only after the init succeeds; a failed init changes nothing. |
| Commands.AppState.CreateBranchCmd | src-tauri/src/commands/mod.rs:186-205 | Needs a bound repository; a missing `checkout` defaults to true. |
| Commands.AppState.MergeBranchCmd | src-tauri/src/commands/mod.rs:290-299 | Needs a bound repository, then runs the merge there. |
| Commands.UnboundRunsNothing | src-tauri/src/commands/mod.rs:68-69 | With the slot empty, commands fail with "No repository selected" and run no git. |
| Commands.LabelChars | src-tauri/src/commands/mod.rs:544-553 | Keeps exactly the ASCII alphanumeric characters and `-`, in order. |
| Commands.WindowLabel | src-tauri/src/commands/mod.rs:544-553 | The label is "worktree-" plus the first 20 kept characters of the path. |
| Commands.LabelIgnores | src-tauri/src/commands/mod.rs:544-553 | A character that is not kept does not change the label. |
| Commands.EncodeInOnePass | src-tauri/src/commands/mod.rs:561-565 | Replacing `%`, then space, then `/` equals encoding each character once. |
| Commands.EncodePath | src-tauri/src/commands/mod.rs:561-565 | The encoded path contains no space and no `/`. |
| Commands.EncodeRoundTrip | src-tauri/src/commands/mod.rs:561-565 | Percent-decoding the encoded path gives the path back. |
| Commands.PercentFirst | src-tauri/src/commands/mod.rs:561-565 | `%` has to be replaced first: the other order encodes a space twice. |
| Commands.OpenWorktreeWindow | src-tauri/src/commands/mod.rs:534-577 | An open window with the label is focused. Otherwise one opens at the encoded URL, titled with the branch. |
| Config.DefaultModelFor | src-tauri/src/config/mod.rs:38-45 | A fixed model for Gemini, Claude and OpenAI; none for Ollama. |
| Config.DefaultModelAllowed | src-tauri/src/config/mod.rs:38-45 | Each default is in its provider's allowlist. |
| Config.LoadConfigRaw | src-tauri/src/config/mod.rs:299-327 | No file gives the defaults, a stored file its value and an unparsable one an error. |
| Config.LoadConfig | src-tauri/src/config/mod.rs:329-337 | The stored configuration, with the model replaced by the session override when one is set. |
| Config.OverrideAfterSave | src-tauri/src/config/mod.rs:351-364 | Saving as default clears the override; otherwise the override becomes the chosen model. |
| Config.Persisted | src-tauri/src/config/mod.rs:351-364 | Saving as default persists the model; otherwise it persists the provider default, or "" for Ollama. |
| Config.ModelPreferenceRoundTrip | src-tauri/src/config/mod.rs:351-364 | Loading after a save with model preference gives back the configuration saved. |
| Config.PersistedModel | src-tauri/src/config/mod.rs:351-364 | Only the model can differ from the configuration saved, and a substituted model is valid for its provider. |
| Config.SlotNamed | src-tauri/src/config/mod.rs:171-189 | Provider names match claude, openai and gemini in any case. |
| Config.WithSecret | src-tauri/src/config/mod.rs:191-217 | Storing a key sets that provider's slot and leaves the other two unchanged. |
| Config.LoadSecretsOptional | src-tauri/src/config/mod.rs:113-141 | No file gives None, a stored file its value and an unparsable one an error. |
| Config.LoadSecrets | src-tauri/src/config/mod.rs:143-169 | A missing secrets file is an error too. |
| Config.GetApiKey | src-tauri/src/config/mod.rs:171-189 | Unknown providers and missing or empty keys are errors. Otherwise the stored key is returned untrimmed. |
| Config.GetApiKeyStatus | src-tauri/src/config/mod.rs:219-235 | The three providers, each configured iff its trimmed key is non-empty. |
| Config.BlankKeyDisagreement | src-tauri/src/config/mod.rs:180-186 | A blank key is returned by get_api_key yet reported as not configured. |
| Config.TrimmedKeysAgree | src-tauri/src/config/mod.rs:224-233 | For stored keys that are already trimmed, the status and get_api_key agree. |
| Config.SecretsAfterSave | src-tauri/src/config/mod.rs:191-217 | Blank keys, unparsable files and unknown providers are refused. Otherwise the trimmed key goes in that slot only. |
| Config.SaveKeepsKeysTrimmed | src-tauri/src/config/mod.rs:191-217 | Saving keeps every stored key trimmed. |
| Config.SaveThenGet | src-tauri/src/config/mod.rs:191-217 | After a save, get_api_key gives the trimmed key, and other providers are unchanged. |
| Config.ConfigStore.constructor | src-tauri/src/config/mod.rs:21-36 | The store starts with the given files and no override. |
| Config.ConfigStore.SetSessionOverride | src-tauri/src/config/mod.rs:25-29 | Sets the override only. |
| Config.ConfigStore.SaveConfig | src-tauri/src/config/mod.rs:339-349 | Writes the configuration when writable, so that loading it gives it back; otherwise an error and no change. |
| Config.ConfigStore.SaveConfigWithModelPreference | src-tauri/src/config/mod.rs:351-364 | Sets the override rule's value, writes the persisted form, and a later load gives the configuration back. |
| Config.ConfigStore.UpdateAiConfig | src-tauri/src/config/mod.rs:366-370 | Read-modify-write of the AI part through the model-preference save; a parse error changes nothing. |
| Config.ConfigStore.UpdateCommitPreferences | src-tauri/src/config/mod.rs:373-377 | Read-modify-write of the commit preferences only. |
| Config.ConfigStore.UpdateLastRepo | src-tauri/src/config/mod.rs:379-383 | Read-modify-write of the last repository only. |
| Config.ConfigStore.SaveApiKey | src-tauri/src/config/mod.rs:191-217 | Writes the secrets after a save when writable; get_api_key then gives the trimmed key. |
| Ai.AllowedModels | src-tauri/src/ai/mod.rs:26-34 | The allowlist of the named provider, or none for ollama and unknown names. |
| Ai.AllowedModelsCaseBlind | src-tauri/src/ai/mod.rs:26-34 | The provider name is matched in any case. |
| Ai.AllowedModelsEmpty | src-tauri/src/ai/mod.rs:26-34 | The list is empty exactly for ollama and unknown names. |
| Ai.ValidateModel | src-tauri/src/ai/mod.rs:36-61 | Ollama accepts any model. The others accept exactly their allowlist, and otherwise give the source's message. |
| Ai.BuildCommitPrompt | src-tauri/src/ai/mod.rs:222-250 | The prompt starts with the fixed opening and contains the diff fenced. |
| Ai.PromptCarriesDiff | src-tauri/src/ai/mod.rs:222-250 | The diff appears verbatim at a fixed place, between the introduction and the closing. |
| Ai.GenerateCommitMessage | src-tauri/src/ai/mod.rs:176-192 | An invalid model is an error and sends nothing. Otherwise the built prompt is sent once. |
| Ai.ChatWithAi | src-tauri/src/ai/mod.rs:194-207 | An invalid model is an error and sends nothing. Otherwise the messages are sent once. |
| Ai.NoRequestForDisallowedModel | src-tauri/src/ai/mod.rs:176-207 | A model outside the allowlist never reaches the network. |
| Setup.ParseGitVersion | src-tauri/src/setup/mod.rs:21-24 | None for empty output or a missing "git version " prefix; otherwise the trimmed rest of the trimmed first line. |
| Setup.GitVersionNone | src-tauri/src/setup/mod.rs:21-24 | Empty output and a bare "git" give None. |
| Setup.GitVersionRoundTrip | src-tauri/src/setup/mod.rs:21-24 | "git version v" followed by more lines gives v. |
| Setup.ParseGhVersion | src-tauri/src/setup/mod.rs:26-32 | The whole trimmed first line without the "gh version " prefix; with it, the third whitespace token. |
| Setup.GhVersionNone | src-tauri/src/setup/mod.rs:26-32 | None exactly for output without lines. |
| Setup.GhVersionRoundTrip | src-tauri/src/setup/mod.rs:26-32 | gh's banner "gh version v (date)" gives v. |
| Setup.OutputErrorMessage | src-tauri/src/setup/mod.rs:34-40 | The trimmed stderr, or the trimmed stdout when stderr is blank. |
| Setup.Requirement | src-tauri/src/setup/mod.rs:42-69 | Installed iff the process ran and succeeded, with a version and no error; otherwise no version and the spawn or output error. |
| Setup.CheckGitInstalled | src-tauri/src/setup/mod.rs:42-69 | Git's status, with the parsed version or the trimmed stdout. |
| Setup.CheckGhInstalled | src-tauri/src/setup/mod.rs:71-98 | The GitHub CLI's status, with the parsed version. |
| Setup.CheckGhAuthenticated | src-tauri/src/setup/mod.rs:100-124 | The authentication status never carries a version. |
| Setup.GitInstalledVersion | src-tauri/src/setup/mod.rs:46-60 | A successful "git version v" run reports Git as installed with version v. |
| Setup.CheckAllRequirements | src-tauri/src/setup/mod.rs:126-138 | The three statuses, and all passed iff all three ran successfully. |
| Resolution.BuildResolvedContent | src/pages/ConflictResolverPage/hooks/useResolution.ts:10-53 | The loop computes the specification's result; a file without hunks comes back unchanged. |
| Resolution.ExpectedOk | src/pages/ConflictResolverPage/hooks/useResolution.ts:20-53 | Succeeds exactly when there are as many blocks as hunks and every hunk is resolved. |
| Resolution.ExpectedTooFewBlocks | src/pages/ConflictResolverPage/hooks/useResolution.ts:48-50 | Fewer blocks than hunks is the incomplete-resolution error. |
| Resolution.ExpectedTooManyBlocks | src/pages/ConflictResolverPage/hooks/useResolution.ts:22-30 | A block without a parsed hunk is the out-of-sync error. |
| Resolution.ResolvedContentOfSegments | src/pages/ConflictResolverPage/hooks/useResolution.ts:20-53 | For text and complete blocks, the text is kept and the k-th block is replaced by the k-th resolution split on "\n". |
| Resolution.AcceptOursAddsBlankLine | src/pages/ConflictResolverPage/hooks/useResolution.ts:61-73 | Accepting ours puts the ours lines and one extra blank line in place of the block. |
| Resolution.AcceptedBlock | src/pages/ConflictResolverPage/hooks/useResolution.ts:20-53 | A resolved single block is replaced by its resolution's lines and a blank line. |
| Resolution.ResolutionState.constructor | src/pages/ConflictResolverPage/hooks/useResolution.ts:55-56 | No resolutions and no resolved files. |
| Resolution.ResolutionState.FileRecord | src/pages/ConflictResolverPage/hooks/useResolution.ts:76-77 | A file's resolutions, or none. |
| Resolution.ResolutionState.ApplyResolution | src/pages/ConflictResolverPage/hooks/useResolution.ts:59-95 | Records the chosen content for that file and hunk only, and marks the file unresolved. |
| Resolution.RecordTouchesOneEntry | src/pages/ConflictResolverPage/hooks/useResolution.ts:75-84 | Every other (file, hunk) entry keeps its presence and value. |
| Resolution.ResolutionState.GetResolvedContent | src/pages/ConflictResolverPage/hooks/useResolution.ts:97-102 | The recorded content, or "". |
| Resolution.ResolutionState.SaveFile | src/pages/ConflictResolverPage/hooks/useResolution.ts:104-130 | Binary files and files without resolutions are refused. The built content is returned, and the file is marked resolved only on success. |
| ConflictPreview.BuildConflictPreviewLines | src/pages/ConflictResolverPage/utils/buildConflictPreview.ts:11-99 | The loop computes the specification's preview; without hunks, every line is unhighlighted. |
| ConflictPreview.OpenBlock | src/pages/ConflictResolverPage/utils/buildConflictPreview.ts:29-43 | An opening marker looks up the resolution of the block's hunk, or none when hunks run out. In result mode a resolved block shows the resolution's lines, tagged resolved, and skips its own lines. Otherwise the marker shows in result mode only. |
| ConflictPreview.AppendResolved | src/pages/ConflictResolverPage/utils/buildConflictPreview.ts:34-36 | Every line of the resolution is appended in order, tagged resolved. |
| ConflictPreview.AppendBody | src/pages/ConflictResolverPage/utils/buildConflictPreview.ts:75-92 | A block line shows in ours mode only on our side and in theirs mode only on their side, with that side's highlight. In result mode it always shows, tagged by its side. |
| ConflictPreview.StepOpen | src/pages/ConflictResolverPage/utils/buildConflictPreview.ts:29-47 | An opener starts a block. In result mode a resolved block shows its resolution and skips the rest; an unresolved one shows the marker. |
| ConflictPreview.StepSeparator | src/pages/ConflictResolverPage/utils/buildConflictPreview.ts:50-55 | The separator switches to theirs inside a block only. |
| ConflictPreview.StepClose | src/pages/ConflictResolverPage/utils/buildConflictPreview.ts:58-67 | The closer ends the block and advances the hunk index once. |
| ConflictPreview.StepBody | src/pages/ConflictResolverPage/utils/buildConflictPreview.ts:70-93 | Body lines are shown according to mode and section, or skipped under a resolution. |
| ConflictPreview.StepText | src/pages/ConflictResolverPage/utils/buildConflictPreview.ts:95 | Lines outside blocks are shown unhighlighted. |
| ConflictPreview.ResultPreviewIsFile | src/pages/ConflictResolverPage/utils/buildConflictPreview.ts:38-95 | In result mode with nothing resolved, the texts are exactly the file's lines. |
| ConflictPreview.Plain | src/pages/ConflictResolverPage/utils/buildConflictPreview.ts:95 | One unhighlighted preview line per text line, in order. |
| ConflictPreview.Tagged | src/pages/ConflictResolverPage/utils/buildConflictPreview.ts:70-93 | One preview line per body line, in order, all with the same highlight. |
| ConflictPreview.ResultShowsEveryLine | src/pages/ConflictResolverPage/utils/buildConflictPreview.ts:38-95 | With nothing resolved, result mode shows every remaining line exactly once and unchanged. |
| ConflictPreview.PreviewText | src/pages/ConflictResolverPage/utils/buildConflictPreview.ts:95 | A run of lines outside a block is shown unhighlighted. |
| ConflictPreview.PreviewSide | src/pages/ConflictResolverPage/utils/buildConflictPreview.ts:70-93 | The body lines of one side are shown with that side's highlight in their mode, or skipped under a resolution. |
| ConflictPreview.PreviewBlock | src/pages/ConflictResolverPage/utils/buildConflictPreview.ts:29-93 | A whole marked block adds exactly its block preview and moves to the next hunk. |
| ConflictPreview.PreviewSegments | src/pages/ConflictResolverPage/utils/buildConflictPreview.ts:11-99 | The loop over text and blocks appends the expected preview of each segment in turn. |
| ConflictPreview.PreviewOfSegments | src/pages/ConflictResolverPage/utils/buildConflictPreview.ts:11-99 | For text and blocks: ours and theirs modes show text plus that side only; result mode shows a resolved block's resolution, or the marked block. |
| Tabs.TitleFromPath | src/stores/tabStore.ts:70-74 | "Nova Aba" without a path; otherwise the last path segment, or the path when that is empty. |
| Tabs.EmptyTab | src/stores/tabStore.ts:93-102 | A new tab: the given title or the path's, no repository state, the commits page and empty sub-states. |
| Tabs.Created | src/stores/tabStore.ts:111-122 | Adds the tab, appends its id and makes it active. |
| Tabs.CreateKeepsValid | src/stores/tabStore.ts:111-122 | Creating a fresh id keeps the store well-formed. |
| Tabs.CloseAt | src/stores/tabStore.ts:131-145 | Closing removes the tab. If it was active, its left neighbour (or the new first) becomes active; otherwise the active tab stays. |
| Tabs.CloseUnknown | src/stores/tabStore.ts:124-146 | Closing an unknown id changes nothing. |
| Tabs.CloseKeepsValid | src/stores/tabStore.ts:124-146 | Closing keeps the store well-formed, including the one-tab no-op. |
| Tabs.Activated | src/stores/tabStore.ts:148-152 | Unknown ids are ignored. |
| Tabs.MovedPermutes | src/stores/tabStore.ts:154-161 | Reordering is a permutation with the moved id at the target, and the others keep their order. |
| Tabs.ReorderKeepsValid | src/stores/tabStore.ts:154-161 | Reordering keeps the store well-formed. |
| Tabs.Modified | src/stores/tabStore.ts:163-251 | An update changes only that tab, and nothing for an unknown id. |
| Tabs.ModifyKeepsValid | src/stores/tabStore.ts:163-251 | Updates keep the store well-formed. |
| Tabs.ActiveTab | src/stores/tabStore.ts:253-256 | The tab of the active id; present whenever a well-formed store has an active id. |
| Tabs.OrElse | src/stores/tabStore.ts:95-96 | JavaScript's `or` on strings that may be null: truthy iff either is, and a truthy a wins. |
| Tabs.InitialValid | src/stores/tabStore.ts:107-110 | The initial store (no tabs, no order, no active id) is well-formed. |
| Tabs.PatchesIdempotent | src/stores/tabStore.ts:163-236 | Applying the same shallow patch twice equals applying it once; a patch without git leaves the git state. |
| Tabs.Partialize | src/stores/tabStore.ts:262-277 | The saved state keeps every tab id, the order and the active id. |
| Tabs.RestoreTab | src/stores/tabStore.ts:283-292 | A restored tab has its saved identity, path and title (or the path's title) and empty git, merge and AI states. |
| Tabs.KeepOpen | src/stores/tabStore.ts:295 | The restored order keeps exactly the ids that have a tab, and is unchanged when all do. |
| Tabs.RestoreSaved | src/stores/tabStore.ts:262-306 | Restoring a saved tab gives the tab with its transient states cleared. |
| Tabs.Rehydrated | src/stores/tabStore.ts:278-306 | Order filtered to restored tabs; the saved active id if valid, else the first. |
| Tabs.SaveRestore | src/stores/tabStore.ts:262-306 | Saving then rehydrating gives the same tabs, order and active id, with cleared sub-states. |
| Tabs.TabStore.constructor | src/stores/tabStore.ts:104-110 | An empty store. |
| Tabs.TabStore.CreateTab | src/stores/tabStore.ts:111-122 | The new state is Created with the given id. |
| Tabs.TabStore.CloseTab | src/stores/tabStore.ts:124-146 | The new state is Closed; with one tab, nothing changes. |
| Tabs.TabStore.SetActiveTab | src/stores/tabStore.ts:148-152 | The new state is Activated. |
| Tabs.TabStore.ReorderTabs | src/stores/tabStore.ts:154-161 | The new state is the reordered one. |
| Tabs.TabStore.UpdateTab | src/stores/tabStore.ts:163-176 | Shallow-merges the patch into that tab only. |
| Tabs.TabStore.UpdateTabGit | src/stores/tabStore.ts:178-191 | Shallow-merges into that tab's git state only. |
| Tabs.TabStore.UpdateTabNavigation | src/stores/tabStore.ts:193-206 | Sets that tab's page only. |
| Tabs.TabStore.UpdateTabMerge | src/stores/tabStore.ts:208-221 | Shallow-merges into that tab's merge state only. |
| Tabs.TabStore.UpdateTabAi | src/stores/tabStore.ts:223-236 | Shallow-merges into that tab's AI state only. |
| Tabs.TabStore.ResetTabGit | src/stores/tabStore.ts:238-251 | Resets that tab's git state only. |
| Tabs.TabStore.GetActiveTab | src/stores/tabStore.ts:253-256 | The active tab. |
| Tabs.TabStore.GetTab | src/stores/tabStore.ts:258 | The tab with that id, if any. |
| Tabs.TabStore.Persisted | src/stores/tabStore.ts:262-277 | The saved part of the state. |
| Tabs.TabStore.Rehydrate | src/stores/tabStore.ts:278-306 | The new state is the rehydrated one. |
| RecentRepos.Dropped | src/stores/recentReposStore.ts:34 | No entry with the path remains. |
| RecentRepos.DroppedFrom | src/stores/recentReposStore.ts:34 | Every kept entry was in the list and has another path. |
| RecentRepos.DroppedKeeps | src/stores/recentReposStore.ts:34 | Every entry with another path is kept. |
| RecentRepos.DroppedAppend | src/stores/recentReposStore.ts:34 | Dropping keeps the relative order. |
| RecentRepos.DroppedAbsent | src/stores/recentReposStore.ts:34 | Dropping an absent path changes nothing. |
| RecentRepos.Added | src/stores/recentReposStore.ts:24-39 | The new entry first, named by the last path segment, then the others in order, at most 10 entries. |
| RecentRepos.AddedFirstOnly | src/stores/recentReposStore.ts:34-36 | The path is first and appears nowhere else. |
| RecentRepos.DroppedWellFormed | src/stores/recentReposStore.ts:34 | Dropping keeps paths unique. |
| RecentRepos.AddKeepsWellFormed | src/stores/recentReposStore.ts:34-36 | At most 10 entries with unique paths, before and after. |
| RecentRepos.AddKeepsRecentOthers | src/stores/recentReposStore.ts:34-36 | The other entries keep their relative order. |
| RecentRepos.AddIdempotent | src/stores/recentReposStore.ts:24-39 | Adding the same path twice at the same time equals adding it once. |
| RecentRepos.RecentReposStore.constructor | src/stores/recentReposStore.ts:22 | An empty list. |
| RecentRepos.RecentReposStore.AddRepo | src/stores/recentReposStore.ts:24-39 | The new list is Added. |
| RecentRepos.RecentReposStore.RemoveRepo | src/stores/recentReposStore.ts:41-45 | The new list is Dropped. |
| RecentRepos.RecentReposStore.ClearHistory | src/stores/recentReposStore.ts:47-49 | The list is empty. |
| Paths.LastSegment | src/stores/recentReposStore.ts:25 | The longest separator-free suffix, preceded by a separator unless it is the whole path. |
| Paths.BaseName | src/stores/recentReposStore.ts:25 | The name of a non-empty path is never empty. |
| Paths.BaseNameIs | src/stores/recentReposStore.ts:25 | The name is the last segment, or the path when that segment is empty. |
| Paths.BaseNameOfJoin | src/stores/recentReposStore.ts:25 | dir + separator + name gives name, for `/` and `\`. |
| Paths.TrailingSeparator | src/stores/tabStore.ts:73 | A path ending in a separator is its own name. |
| BranchSearch.NormalizeName | src/pages/BranchesPage/hooks/useBranchSearch.ts:13 | One leading "+ " goes, if there is one. |
| BranchSearch.NormalizeOnce | src/pages/BranchesPage/hooks/useBranchSearch.ts:13 | Only a single mark is removed. |
| BranchSearch.NormalizedQuery | src/pages/BranchesPage/hooks/useBranchSearch.ts:16-17 | The query is trimmed and has no upper-case letters. |
| BranchSearch.QueryIdempotent | src/pages/BranchesPage/hooks/useBranchSearch.ts:16-17 | Normalizing twice equals once. |
| BranchSearch.Narrowed | src/pages/BranchesPage/hooks/useBranchSearch.ts:19-24 | An empty query keeps the list; otherwise every kept branch matches. |
| BranchSearch.NarrowedExactly | src/pages/BranchesPage/hooks/useBranchSearch.ts:19-24 | A branch is kept iff it matches, and narrowing preserves order. |
| BranchSearch.Tags | src/pages/BranchesPage/hooks/useBranchSearch.ts:26-33 | The tags atual, remota and worktree appear exactly for current, remote and worktree branches, in that order. |
| BranchSearch.LabelShape | src/pages/BranchesPage/hooks/useBranchSearch.ts:26-33 | The label starts with the normalized name, and is exactly that name iff there are no tags. |
| BranchSearch.Options | src/pages/BranchesPage/hooks/useBranchSearch.ts:35-42 | One option per branch, in order. |
| BranchSearch.UseBranchSearch | src/pages/BranchesPage/hooks/useBranchSearch.ts:13-42 | The filtered lists are the locals and the remotes narrowed by the normalized query, in order. branchOptions is the options of the locals then the remotes, and starts with localBranchOptions, the options of the locals. |
| BranchSearch.SearchKeepsExactly | src/pages/BranchesPage/hooks/useBranchSearch.ts:19-24 | A branch is listed as local (remote) iff it is a local (remote) input branch and there is no query or it matches. |
| BranchSearch.BlankQueryShowsAll | src/pages/BranchesPage/hooks/useBranchSearch.ts:16-24 | A query of blanks counts as no query. |
| MergeMetrics.CountLabel | src/pages/BranchesPage/hooks/useMergeMetrics.ts:27-35 | A dash without data, otherwise a non-empty string of digits. |
| MergeMetrics.MetricsOf | src/pages/BranchesPage/hooks/useMergeMetrics.ts:22-37 | isSameBranch, isTargetNotCurrent, hasNoCommits, hasConflicts and mergeDisabled exactly as the source's conditions. |
| MergeMetrics.DisabledWithoutTwoBranches | src/pages/BranchesPage/hooks/useMergeMetrics.ts:23-37 | Merging is disabled for a missing branch or the same branch twice. |
| MergeMetrics.EnabledExactly | src/pages/BranchesPage/hooks/useMergeMetrics.ts:37 | Merging is enabled exactly for two different branches, not loading, with commits to bring. |
| MergeMetrics.LabelsMeaning | src/pages/BranchesPage/hooks/useMergeMetrics.ts:27-36 | "-" exactly without data; "Nenhum" exactly for zero conflicts; otherwise the number. |
| BranchControls.NonMainWorktreeBranches | src/components/BranchControls.tsx:56 | The branches of worktrees other than the main one. |
| BranchControls.LocalName | src/components/BranchControls.tsx:65 | The first non-empty `x/` prefix goes; a ref without one is kept. |
| BranchControls.LocalNameOfRemote | src/components/BranchControls.tsx:65 | `origin/feature/x` gives `feature/x`. |
| BranchControls.LocalOptions | src/components/BranchControls.tsx:72-79 | One option per local branch, in order. |
| BranchControls.RemoteOptions | src/components/BranchControls.tsx:81-88 | One option per orphan remote, in order. |
| BranchControls.OrphanRule | src/components/BranchControls.tsx:63-70 | A remote is offered iff its local name is neither a local branch nor on a non-main worktree. |
| BranchControls.OptionsLayout | src/components/BranchControls.tsx:90-103 | Locals, then a divider iff both groups are non-empty, then remotes. |
| BranchControls.ChoosingAnOption | src/components/BranchControls.tsx:72-138 | A local option shows its normalized name, is disabled iff current, flags worktree use and checks it out. A remote option shows its local name and checks out the full ref. |
| GitErrors.FirstMatch | src/lib/gitErrors.ts:131-138 | The kind of the first pattern that matches, with no earlier pattern matching; Unknown when none matches. |
| GitErrors.DetectErrorType | src/lib/gitErrors.ts:131-138 | The loop returns `DetectedKind` of the message: the first matching pattern's kind, or Unknown iff none matches. |
| GitErrors.MatchesCaseBlind | src/lib/gitErrors.ts:39-76 | Letter case never changes whether a pattern matches. |
| GitErrors.FollowsOnLineSpan | src/lib/gitErrors.ts:41-58 | `a.*b` matches when b follows a on the same line. |
| GitErrors.PatternIdsDistinct | src/lib/gitErrors.ts:39-76 | The patterns have distinct kinds, none of them Unknown. |
| GitErrors.ActionLabel | src/lib/gitErrors.ts:143-146 | Only the four actionable kinds have labels. |
| GitErrors.FindLabel | src/lib/gitErrors.ts:143-146 | A found label belongs to a pattern of that kind. |
| GitErrors.GetErrorMessage | src/lib/gitErrors.ts:112-126 | A string is itself; an Error gives its message; an object gives its string message, else its string stderr; anything else is its string form. |
| GitErrors.ErrorActions.constructor | src/lib/gitErrors.ts:82 | No handlers. |
| GitErrors.ErrorActions.Register | src/lib/gitErrors.ts:88-94 | Sets that kind's handler. |
| GitErrors.ErrorActions.Unregister | src/lib/gitErrors.ts:91-93 | The cleanup removes that kind's handler. |
| GitErrors.ErrorActions.Clear | src/lib/gitErrors.ts:100-102 | Removes every handler. |
| GitErrors.RegisterThenCleanup | src/lib/gitErrors.ts:88-94 | Register then cleanup removes that kind and leaves the others as they were. |
| GitErrors.HandleGitError | src/lib/gitErrors.ts:162-187 | The toast shows the error's message, and its kind is the one detected in that message. An action is offered iff that kind has a label and a handler; the context handler wins. The duration is 8000 with an action, else 5000; an unknown error gets a plain 5000 toast. |
| Phone.NormalizeCountry | src/ui/PhoneInput.tsx:31 | Missing or empty gives "US"; otherwise upper case. |
| Phone.Digits | src/ui/PhoneInput.tsx:34 | Only digits remain, and an all-digit string is kept. |
| Phone.DigitsAppend | src/ui/PhoneInput.tsx:34 | Removing non-digits distributes over concatenation. |
| Phone.FormatKeepsDigits | src/ui/PhoneInput.tsx:33-52 | The output's digits are the first 11 (BR) or 10 input digits. |
| Phone.FormatOnlyDigits | src/ui/PhoneInput.tsx:33-52 | The output depends only on those digits. |
| Phone.FormatIdempotent | src/ui/PhoneInput.tsx:76-81 | Formatting a formatted number changes nothing. |
| Phone.LayoutShapes | src/ui/PhoneInput.tsx:33-52 | The three shapes: bare, "(x) y", "(x) y-z". |
| Phone.BrazilShapes | src/ui/PhoneInput.tsx:35-43 | BR: up to 2 digits bare, up to 7 "(dd) ppppp", else "(dd) ppppp-ssss". |
| Phone.DefaultShapes | src/ui/PhoneInput.tsx:44-51 | Others: up to 3 bare, up to 6 "(aaa) fff", else "(aaa) fff-llll". |
| BranchInUse.ParseBranchInUseError | src/components/BranchInUseModal.tsx:110-120 | None iff the pattern occurs nowhere; otherwise the leftmost occurrence's captures. |
| BranchInUse.FirstMatch | src/components/BranchInUseModal.tsx:112 | The first position where the pattern matches. |
| BranchInUse.MatchAtSound | src/components/BranchInUseModal.tsx:112 | A match's captures are non-empty and quote-free, and the message occurs there. |
| BranchInUse.MatchAtComplete | src/components/BranchInUseModal.tsx:112 | Wherever the message occurs with such captures, the match finds them. |
| BranchInUse.ParseSound | src/components/BranchInUseModal.tsx:112-117 | Parsed values are non-empty, quote-free and form a message in the error. |
| BranchInUse.ParseNone | src/components/BranchInUseModal.tsx:120 | When parsing fails, no such message occurs anywhere. |
| BranchInUse.ParseRoundTrip | src/components/BranchInUseModal.tsx:112-117 | For quote-free b and p, the formatted message parses back to (b, p). |
| DiffFiles.NormalizePath | src/pages/CommitsPage/components/CompareWithLocalModal.tsx:29-32 | Missing gives ""; the result is never longer than the path. |
| DiffFiles.NormalizeSides | src/pages/CommitsPage/components/CompareWithLocalModal.tsx:29-32 | The `a/` and `b/` prefixes are removed. |
| DiffFiles.NormalizeBoth | src/pages/CommitsPage/components/CompareWithLocalModal.tsx:29-32 | `a/b/x` gives `x`. |
| DiffFiles.GetFileStatus | src/pages/CommitsPage/components/CompareWithLocalModal.tsx:59-66 | Added iff the old side names no file; deleted iff the old side does and the new one does not; modified iff both do. |
| DiffFiles.LabelOfStatus | src/pages/CommitsPage/components/CompareWithLocalModal.tsx:46-57 | The label of each status as written, including "old → /dev/null" for a deletion. |
| DiffFiles.DeletedShownAsRename | src/pages/CommitsPage/components/CompareWithLocalModal.tsx:46-57 | Deleting `a/notes.txt` is labelled "notes.txt → /dev/null". |
| DiffFiles.FileLabelOfStatus | src/pages/CommitsPage/components/CompareWithLocalModal.tsx:46-57 | The corrected label names a deleted file by its old path, and differs from the source only there. |
| DiffFiles.GetAddedDeletedCounts | src/pages/CommitsPage/components/CompareWithLocalModal.tsx:34-44 | The nested loops count the insertions and deletions over all hunks. |
| DiffFiles.CountsBound | src/pages/CommitsPage/components/CompareWithLocalModal.tsx:34-44 | Added, deleted and normal lines add up to the number of changes. |
| DiffFiles.AllChangesAppend | src/pages/CommitsPage/components/CompareWithLocalModal.tsx:34-44 | The counts of consecutive hunks add up. |
| DiffFiles.EmptyHunksCountNothing | src/pages/CommitsPage/components/CompareWithLocalModal.tsx:34-44 | Hunks without changes count nothing. |

## Left out

- Process execution, the filesystem, the clock, tab-id UUIDs and `Date.now` are inputs: process results, existence flags, an in-memory store and explicit ids and timestamps.
- The network calls of the AI providers (src-tauri/src/ai/mod.rs:252-566) are a given `Backend` function. The model records only which request is sent.
- `Mutex`, `OnceLock` and the async command wrappers: the repository slot and the session override are plain fields.
- Commands.AppState: one repository slot, as the code has. The `contextKey`, `windowLabel` and `tabId` arguments the front end sends are ignored by the back end and are not modelled. `unset_tab_repository` is called by the tab bar but not registered in src-tauri/src/lib.rs, and neither are the worktree commands.
- `license_text` is not modelled: it reads the clock and the git user name. The license body is a parameter of the initialisation.
- General regular expressions, Unicode case folding and Unicode `is_alphanumeric`: the patterns used are substring predicates over ASCII-lowercased text, and letters are ASCII.
- Diff parsing by react-diff-view: the parsed files are given, with their change kinds.
- UI rendering, effects, timers, i18n, window creation, the divider's unselectable entry, and the dialog shown after a failed checkout. The parse that dialog uses is modelled.
- BranchControls.RemoteOptionOf does not store the constant `disabled: false` of remote options.
- MergeMetrics.MetricsOf renders the ahead, behind and shortstat numbers as decimal strings, as the panel shows them.
- Tabs.TabStore.ReorderTabs requires in-range indices: the action has no callers with other indices, and JavaScript's splice on out-of-range indices is not modelled.
- Tabs.TabStore.UpdateTab treats a patch key holding `undefined` as absent.
- ConflictPreview.BuildConflictPreviewLines takes the mode as an argument: the default `'result'` of `buildConflictPreview` is a call with `ResultMode`.
- GitRepository.InitSuccess: the `ran` list leaves out the `git config --global user.name` that `license_text` runs to fill in the author, because the license body is a parameter.
- Config.LoadConfigRaw, Config.LoadSecretsOptional and Config.LoadSecrets read only the current files. The fallback to the legacy `gitflow-ai` files, and their best-effort copy to the new path (src-tauri/src/config/mod.rs:113-169 and 299-318), are not modelled.
- The one-line setter stores (merge, setup, toast, navigation, rename-modal, settings, repo) and the IPC wrappers in the tab hooks.

## Findings

| source | as written | input that shows it | evidently intended | confidence | as-written member | corrected member |
|---|---|---|---|---|---|---|
| src-tauri/src/git/mod.rs:185-191 | The ahead count is the text between "[ahead " and the next "]", parsed as a number. | `## main...origin/main [ahead 1, behind 2]` parses "1, behind 2", which fails, so ahead is 0. | Ahead is 1: the count ends at the comma when a behind count follows. | not executed | GitStatus.StatusHeader | GitStatus.StatusHeaderCorrected |
| src/pages/CommitsPage/components/CompareWithLocalModal.tsx:46-57 | The rename label "old → new" is used when both paths are non-empty, differ, and the old one is not /dev/null. | A deletion with old path `a/notes.txt` and new path `/dev/null` is labelled "notes.txt → /dev/null", although its status is deleted. | A deleted file is labelled by its old path, like the fallback branches. | not executed | DiffFiles.DeletedShownAsRename | DiffFiles.FileLabelOfStatus |
