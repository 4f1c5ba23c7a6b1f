# crowdin-helper, modelled in Dafny

crowdin-helper keeps a project's translation source files on Crowdin in step
with git branches. Each git branch gets a Crowdin branch of its own, named
after the git branch with every `/` written as `--`. The helper has five
commands:

- `up` and `pre-push` upload the source files into that branch.
- `down` checks that master is merged, uploads, builds the branch and unzips
  its translations.
- `progress` fails when the branch has untranslated phrases.
- `auto-translate` asks Crowdin to pre-translate the branch from translation
  memory.
- `purge` deletes Crowdin branches whose git branch is gone and which have
  not been updated for a while.

The model covers the decisions inside those commands:

- the branch-name mapping;
- the purge gate, with its minute-truncated date arithmetic, and the
  stale-branch selection;
- the download gate over `git branch --contains` output, and the mapping of
  archive entries to local files;
- the upload plan: the directory regular expression, add or update, and the
  retry on error code 8;
- the progress verdict;
- the pre-translate request;
- the two configuration loaders, with their defaults and their error exits;
- the form body, URL and endpoint table of the API client.

The older single-file copy of the commands (lib/crowdin-methods.js) and its
fetch helper are modelled too. The model shares the definitions that are
identical and spells out the differences.

Every remote call is a `Request` value appended to a call trace. The
replies are inputs: a scripted reply per call, or a function from file or
branch name to reply. The output of `git` subprocesses is an input string.
An exit with code 1 or a throw is a result variant. Commands whose source
code changes variables step by step are `method`s with loops. Each is proved
equal to a specification function, and the properties are lemmas about those
functions. The configuration manager is a class whose `init` updates its
`config` field.

Modules, one per source file, plus shared ones:

| module | file | models |
|---|---|---|
| `Wrappers`, `Json`, `Strings` | wrappers.dfy, json.dfy, strings.dfy | `Option`, parsed JSON and its truthiness, and the JavaScript string operations used (`indexOf`, first-occurrence `replace`, `replace(/^\//, '')`, character-class removal, `split`) |
| `Settings` | settings.dfy | the values of lib/utilities/config.js, which is not part of this model, as a parameter record |
| `BranchName` | branch_name.dfy | lib/utilities/branch-name.js |
| `CrowdinApi` | crowdin_api.dfy | lib/utilities/crowdin-api.js |
| `CrowdinFetch` | crowdin_fetch.dfy | lib/crowdin-fetch.js |
| `DeleteOldBranches` | delete_old_branches.dfy | lib/commands/delete-old-branches.js |
| `DownloadTranslations` | download_translations.dfy | lib/commands/download-translations.js |
| `UploadSources` | upload_sources.dfy | lib/commands/upload-sources.js |
| `CheckProgress` | check_progress.dfy | lib/commands/check-progress-on-branch.js |
| `AutoTranslate` | trigger_auto_translation.dfy | lib/commands/trigger-auto-translation.js |
| `Config` | config.dfy | lib/config.js |
| `ConfigManager` | config_manager.dfy | lib/utilities/config-manager.js |
| `CrowdinMethods` | crowdin_methods.dfy | lib/crowdin-methods.js |

## Model

| member | source | states |
|---|---|---|
| BranchName.GitBranchName | lib/utilities/branch-name.js:4-8 | the git branch name has no newline, is a prefix of the `rev-parse` output, and is followed there by a newline unless it is the whole output |
| BranchName.CrowdinBranchName | lib/utilities/branch-name.js:10 | the Crowdin name has no `/`, and it is longer than the git name by one character per `/` |
| BranchName.CrowdinBranchNameAppend | lib/utilities/branch-name.js:10 | the global replacement distributes over concatenation |
| BranchName.CrowdinBranchNameNoSlash | lib/utilities/branch-name.js:10 | a name without `/`, such as `master`, is its own Crowdin name |
| BranchName.RestoreCrowdinBranchName | lib/utilities/branch-name.js:10 | for names with no `--` and no `-/`, reading each `--` back as `/` gives the git name again |
| BranchName.CrowdinBranchNameInjective | lib/utilities/branch-name.js:10 | two such names with the same Crowdin name are equal |
| BranchName.CrowdinBranchNameCollision | lib/utilities/branch-name.js:10 | in general the mapping is not injective: `a/b` and `a--b` both become `a--b` |
| BranchName.CrowdinBranchNameOneSlash | lib/utilities/branch-name.js:10 | `a/b` with slash-free parts becomes `a--b`, as `feature/my-feature-branch` becomes `feature--my-feature-branch` |
| Strings.IndexOfFrom | lib/commands/upload-sources.js:63 | `indexOf` gives -1 when there is no occurrence at or after the start, and otherwise the first occurrence |
| Strings.ContainsIff | lib/commands/download-translations.js:76 | `indexOf(...) !== -1` holds exactly when the pattern occurs somewhere |
| Strings.ReplaceFirst | lib/commands/download-translations.js:34 | `replace` with a string pattern: the text before the first occurrence, the replacement, and the text after it; `ReplaceFirstSpec` states its meaning |
| Strings.ReplaceFirstSpec | lib/commands/download-translations.js:34 | `replace` with a string pattern leaves the text unchanged when the pattern is absent, and otherwise replaces only its leftmost occurrence |
| Strings.ReplaceFirstPrefix | lib/commands/delete-old-branches.js:60 | on a text that starts with the pattern, `replace(pattern, '')` cuts exactly that prefix |
| Strings.StripLeadingSlash | lib/config.js:25 | `replace(/^\//, '')` removes one leading `/` when there is one and changes nothing otherwise |
| Strings.RemoveChars | lib/commands/download-translations.js:74 | `replace(/[\* ]/g, '')` keeps exactly the characters outside the class, and the length drops by the number removed |
| Strings.RemoveCharsAppend | lib/commands/download-translations.js:74 | the global removal distributes over concatenation |
| Strings.RemoveCharsAround | lib/commands/download-translations.js:74-75 | a line break, which is not removed, stays between what is left of the lines around it |
| Strings.Split | lib/commands/download-translations.js:75 | `split` gives one piece more than there are separators, no piece holds the separator, and joining the pieces gives the text back |
| Strings.SplitJoin | lib/commands/download-translations.js:75 | splitting a join of separator-free pieces gives the pieces back |
| Strings.SplitFirst | lib/utilities/branch-name.js:7-8 | the first piece is the text before the first separator |
| CrowdinApi.Texts | lib/utilities/crowdin-api.js:58-59 | a list of strings becomes the same list of text values |
| CrowdinApi.ArrayFields | lib/utilities/crowdin-api.js:79-82 | an array parameter of length n yields n fields named `name[]`, holding the elements in order |
| CrowdinApi.Form | lib/utilities/crowdin-api.js:73-86 | the body: `key`, an empty `json`, then each parameter's fields in parameter order; `FormShape` and `ParamFieldsAt` state its layout |
| CrowdinApi.FormShape | lib/utilities/crowdin-api.js:75-86 | the body starts with `key` and an empty `json`, and has two fields more than the parameters' widths (array length, or one) add up to |
| CrowdinApi.AllParamFieldsAppend | lib/utilities/crowdin-api.js:78-86 | the parameters' fields are appended in parameter order |
| CrowdinApi.ParamFieldsAt | lib/utilities/crowdin-api.js:78-86 | the fields of the j-th parameter sit right after those of the parameters before it |
| CrowdinApi.BuildForm | lib/utilities/crowdin-api.js:73-86 | the `append` loop builds exactly the body `Form` describes |
| CrowdinApi.AppendArray | lib/utilities/crowdin-api.js:80-82 | the inner `forEach` appends one `name[]` field per element, in order |
| CrowdinApi.FormSnoc | lib/utilities/crowdin-api.js:78-86 | one more parameter appends its own fields at the end of the body |
| CrowdinApi.Url | lib/utilities/crowdin-api.js:88-89 | the address `https://api.crowdin.com/api/project/<project>/<method>`, used by `Fetch` |
| CrowdinApi.Fetch | lib/utilities/crowdin-api.js:72-91 | every call is a POST to `https://api.crowdin.com/api/project/<project>/<method>` with that body |
| CrowdinApi.Resolve | lib/utilities/crowdin-api.js:93-95 | the reply is read as JSON exactly when `isJsonResponse` is set, and is the raw response otherwise |
| CrowdinApi.OnlyDownloadIsRaw | lib/utilities/crowdin-api.js:9-68 | of the endpoint table, only `download/all.zip` is read raw |
| CrowdinApi.PreTranslateForm | lib/utilities/crowdin-api.js:56-64 | a pre-translate body is the languages, then the files, then `method` `tm`, `apply_untranslated_strings_only` 1 and `perfect_match` 1 |
| CrowdinFetch.CrowdinFetch | lib/crowdin-fetch.js:7-31 | the older helper builds the same POST, URL and body, and reads JSON exactly when the flag is set |
| DeleteOldBranches.TruncateToMinute | lib/commands/delete-old-branches.js:75-78 | dropping seconds and milliseconds gives the start of the minute |
| DeleteOldBranches.DateDiff | lib/commands/delete-old-branches.js:75-80 | the difference is the floor of the truncated difference divided by the unit |
| DeleteOldBranches.DiffInMinutesExact | lib/commands/delete-old-branches.js:88-92 | the truncated times differ by a whole number of minutes, so no rounding occurs |
| DeleteOldBranches.SameMinute | lib/commands/delete-old-branches.js:75-92 | two times within the same minute are 0 minutes and 0 days apart |
| DeleteOldBranches.DiffInMinutesAntisymmetric | lib/commands/delete-old-branches.js:88-92 | swapping the dates negates the minutes |
| DeleteOldBranches.DiffInDaysFromMinutes | lib/commands/delete-old-branches.js:82-92 | the days are the minutes divided by 1440, rounded down |
| DeleteOldBranches.DiffInMinutesMonotonic | lib/commands/delete-old-branches.js:88-92 | a later "now" never gives fewer minutes |
| DeleteOldBranches.LastUpdated | lib/commands/delete-old-branches.js:63-73 | `_getFileLastUpdated`: a file's date, else its first child's, else the oldest possible date; `LastUpdatedSource` states its meaning |
| DeleteOldBranches.LastUpdatedSource | lib/commands/delete-old-branches.js:63-73 | the last update is the date of the file reached by always taking the first child, or the oldest possible date when that path has no file |
| DeleteOldBranches.EmptyBranchIsAncient | lib/commands/delete-old-branches.js:68 | a branch whose date is the oldest possible date is older than any threshold below 100000000 days |
| DeleteOldBranches.LineEnd | lib/commands/delete-old-branches.js:60 | the end of a `.+` match is the next line terminator, or the end of the text |
| DeleteOldBranches.HeadMatches | lib/commands/delete-old-branches.js:60 | every match starts with `refs/heads/`, has at least one more character, and stays within one line |
| DeleteOldBranches.RemoteHeads | lib/commands/delete-old-branches.js:57-61 | the result is `null` (a throw) exactly when nothing matches, and otherwise there is one head per match |
| DeleteOldBranches.RemoteHeadsAreNames | lib/commands/delete-old-branches.js:60 | each head is its match without the leading `refs/heads/`, non-empty and on one line |
| DeleteOldBranches.HeadMatchesRef | lib/commands/delete-old-branches.js:60 | a ref that runs to the end of its line is matched whole |
| DeleteOldBranches.RemoteHeadsOfLsRemote | lib/commands/delete-old-branches.js:57-61 | for `ls-remote` lines of hash, tab and ref, the heads are the listed branch names, in order |
| DeleteOldBranches.HeadMatchesEmptyIff | lib/commands/delete-old-branches.js:60 | the `refs/heads/.+` search finds nothing exactly when no position of the output holds `refs/heads/` followed by a character that ends no line |
| DeleteOldBranches.NoHeadsNoMatch | lib/commands/delete-old-branches.js:57-61 | `match` gives `null`, so the command throws, exactly when the `ls-remote` output holds no ref name anywhere |
| DeleteOldBranches.SingleRemoteHead | lib/commands/delete-old-branches.js:57-61 | a bare `refs/heads/<name>` gives the single head `<name>` |
| DeleteOldBranches.ConvertedHeads | lib/commands/delete-old-branches.js:24 | each git head is mapped to its Crowdin name, in order |
| DeleteOldBranches.BranchNodes | lib/commands/delete-old-branches.js:23 | exactly the nodes of type `branch` are candidates |
| DeleteOldBranches.IsStale | lib/commands/delete-old-branches.js:33-36 | the deletion test: no converted git head has the branch's name and its last update is strictly more days old than the threshold |
| DeleteOldBranches.StaleBranches | lib/commands/delete-old-branches.js:26-47 | the names that pass the test, in Crowdin's order; `StaleBranchesIff` states its meaning |
| DeleteOldBranches.StaleBranchesIff | lib/commands/delete-old-branches.js:27-39 | a name is deleted exactly when a listed branch of that name has no converted git head and is strictly more days old than the threshold |
| DeleteOldBranches.LiveBranchKept | lib/commands/delete-old-branches.js:24-37 | a branch whose git head still exists is never deleted |
| DeleteOldBranches.MinutesSinceMasterMerge | lib/commands/delete-old-branches.js:94-99 | the minutes are defined exactly when the master commit date is a valid date |
| DeleteOldBranches.TooSoonToPurge | lib/commands/delete-old-branches.js:9-19 | the exit test: the minutes since the last master commit are a number below the configured minimum (a `NaN` never stops the purge) |
| DeleteOldBranches.DeleteRequests | lib/commands/delete-old-branches.js:40 | one `delete-directory` request per stale branch, in order |
| DeleteOldBranches.DeleteEvents | lib/commands/delete-old-branches.js:40-46 | one printed outcome per deletion: removed when it resolves, failed when it rejects, and a failure stops nothing |
| DeleteOldBranches.IssueDeletions | lib/commands/delete-old-branches.js:25-50 | the loop issues the requests and events of the stale branches, and its flag is set exactly when some branch is stale |
| DeleteOldBranches.DeleteOldBranches | lib/commands/delete-old-branches.js:8-54 | a recent merge exits with no call at all; no remote head throws after `info`; otherwise `info`, then the stale branches' deletions, and "nothing to delete" exactly when no branch is stale |
| DeleteOldBranches.OldBranchPurged | lib/commands/delete-old-branches.js:8-54 | with `master` the only head, an old branch of another name is deleted and reported as removed |
| DownloadTranslations.CommitId | lib/commands/download-translations.js:64-66 | the commit id has no `"` |
| DownloadTranslations.BranchList | lib/commands/download-translations.js:73-75 | the cleaned lines hold no space, `*` or newline |
| DownloadTranslations.IsLastSourceFromMasterMerged | lib/commands/download-translations.js:59-79 | every source file's last master commit lists the current git branch among its cleaned `git branch --contains` lines |
| DownloadTranslations.NoSourcesMerged | lib/commands/download-translations.js:62-78 | with no source files the merge check holds |
| DownloadTranslations.CleanLine | lib/commands/download-translations.js:74 | a `git branch` line loses its marker and keeps its name |
| DownloadTranslations.BranchListOfOutput | lib/commands/download-translations.js:73-76 | the branch names are read back exactly from well-formed `git branch --contains` output without a final newline, as the test suite prints it, whatever the markers |
| DownloadTranslations.BranchListOfTerminatedOutput | lib/commands/download-translations.js:73-76 | output with a newline after every line, as git prints it, reads back as the names followed by one empty line |
| DownloadTranslations.TerminatedOutputListed | lib/commands/download-translations.js:75-76 | on newline-terminated output a non-empty branch name is listed exactly when it is one of the names, and the empty name is always listed |
| DownloadTranslations.NotMergedWhenUnlisted | lib/commands/download-translations.js:71-78 | a file whose last master commit is not in a branch listed under the current name fails the merge check |
| DownloadTranslations.OutputPath | lib/commands/download-translations.js:34 | the first occurrence of the branch name removed, then one leading `/`; `OutputPathInBranch` states what it gives |
| DownloadTranslations.OutputPathInBranch | lib/commands/download-translations.js:34 | `<branch>/<rest>` is written at `<rest>` |
| DownloadTranslations.EntryFiles | lib/commands/download-translations.js:33-45 | an entry writes at most one file |
| DownloadTranslations.WrittenFiles | lib/commands/download-translations.js:32-46 | no more files are written than there are entries |
| DownloadTranslations.WrittenFilesIff | lib/commands/download-translations.js:33-45 | a file is written exactly when some `File` entry maps to it; other entries are drained |
| DownloadTranslations.WrittenFilesAppend | lib/commands/download-translations.js:32-46 | entries are written in archive order |
| DownloadTranslations.ExtractArchive | lib/commands/download-translations.js:32-46 | the `entry` handler writes exactly the files `WrittenFiles` lists |
| DownloadTranslations.DownloadTranslations | lib/commands/download-translations.js:11-55 | without force, a failed merge check exits before any request; otherwise the upload's requests, then `export`, then `download/all.zip`, then the archive's files; a throwing upload stops the command |
| DownloadTranslations.DownloadOrder | lib/commands/download-translations.js:21-29 | the calls start with the branch creation and end with the build and the raw archive download |
| UploadSources.DirName | lib/commands/upload-sources.js:25-29 | the regular expression's directory is non-empty, on one line, and ends right before a `/` that is followed by a non-empty slash-free name; a path without `/` has none |
| UploadSources.DirNameOfPath | lib/commands/upload-sources.js:25-29 | `dir/name` lies in `dir` |
| UploadSources.EveryFileListedAsChanged | lib/commands/upload-sources.js:58-64 | the skip test as written: every source file name occurs in the `git diff --name-only` output |
| UploadSources.NoSourceFileInDiff | lib/commands/upload-sources.js:58-64 | the skip test as its name and message mean it: no source file name occurs in the diff output |
| UploadSources.SkipTestInverted | lib/commands/upload-sources.js:58-64 | as written the skip test holds for a file found in the diff and fails for an empty diff, the opposite of what its name says |
| UploadSources.SkipTestsDisagree | lib/commands/upload-sources.js:58-64 | for a non-empty file list the as-written test and the intended one never both hold |
| UploadSources.SkipIffNoFileChanged | lib/commands/upload-sources.js:58-64 | the intended skip test holds exactly when no source file name occurs anywhere in the diff output |
| UploadSources.FileRequests | lib/commands/upload-sources.js:25-46 | a file causes one to three requests, and the last is its `add-file` or `update-file` |
| UploadSources.FileRequestsRules | lib/commands/upload-sources.js:25-46 | for one file: exactly `(directory ? 1 : 0) + 1 + (code 8 ? 1 : 0)` requests; `add-directory` first exactly when the path has a directory and nowhere else; then one upload call, `update-file` exactly when the branch already existed; then `add-file` exactly when that call answered code 8, whose reply is then final; otherwise the first reply is final |
| UploadSources.UploadedFilesIff | lib/commands/upload-sources.js:38-50 | a file is reported as uploaded exactly when it is listed and its final reply (the fallback's after code 8) succeeded |
| UploadSources.AllFileRequestsCount | lib/commands/upload-sources.js:23-52 | the number of requests is one first upload call per file, plus one `add-directory` per file with a directory, plus one `add-file` retry per file answered with code 8 |
| UploadSources.AllFileRequestsAppend | lib/commands/upload-sources.js:23-52 | the requests of two lists of files are those of the first list, then those of the second |
| UploadSources.FileBlock | lib/commands/upload-sources.js:23-52 | each file's own requests (the rules of `FileRequestsRules`) form one block, after those of the files before it and before those of the files after it |
| UploadSources.NewBranchNeverUpdates | lib/commands/upload-sources.js:33-37 | on a newly created branch no `update-file` is issued |
| UploadSources.UploadFile | lib/commands/upload-sources.js:25-50 | the steps for one file issue the requests whose rules `FileRequestsRules` states, and report the file as uploaded exactly when the final reply succeeded |
| UploadSources.UploadPlan | lib/commands/upload-sources.js:9-55 | once the skip test is decided: nothing, or `add-directory` for the branch, then each file's requests, then the auto-translation, with the uploaded files |
| UploadSources.UploadSources | lib/commands/upload-sources.js:9-64 | the loop performs the plan, with the skip test as the code writes it: the command stops with no request when skipping is asked for and every source file name occurs in the diff |
| UploadSources.IntendedUploadSources | lib/commands/upload-sources.js:9-64 | with the intended skip test, nothing is uploaded exactly when skipping is asked for and no source file name occurs anywhere in the diff; otherwise the upload goes ahead as the code performs it |
| UploadSources.ChangedFileSkipped | lib/commands/upload-sources.js:9-64 | for one changed file the code skips the upload and the intended test uploads it; with an empty diff the code uploads and the intended test skips |
| UploadSources.SingleFileOnNewBranch | lib/commands/upload-sources.js:20-46 | one file `dir/name` on a new branch is the branch, its directory, then `add-file` |
| CheckProgress.FindBranch | lib/commands/check-progress-on-branch.js:22-26 | the branch examined is the first node of type `branch` with the name, and none when there is no such node |
| CheckProgress.BranchVerdict | lib/commands/check-progress-on-branch.js:28-49 | the checks on the branch never give the master verdict or a crash |
| CheckProgress.CheckProgressOnBranch | lib/commands/check-progress-on-branch.js:8-51 | on master only the auto-translation's requests are made, and elsewhere one `language-status` query |
| CheckProgress.FailsIffIncomplete | lib/commands/check-progress-on-branch.js:9-49 | the command fails exactly off master, when the first matching branch has phrases and not all of them are translated |
| CheckProgress.MasterNeverFails | lib/commands/check-progress-on-branch.js:9-16 | on master the command never reports missing translations, and it crashes only through a rejected pre-translate |
| CheckProgress.NoPhrasesPasses | lib/commands/check-progress-on-branch.js:34-38 | a branch with no phrases passes after one `language-status` request |
| AutoTranslate.PrefixAll | lib/commands/trigger-auto-translation.js:17-18 | the file list has the source files' length and order, each as `<branch>/<file>` |
| AutoTranslate.PrefixAllStrip | lib/commands/trigger-auto-translation.js:17-18 | the branch prefix and the `/` can be cut off again to give each file back |
| AutoTranslate.TriggerAutoTranslation | lib/commands/trigger-auto-translation.js:8-31 | when disabled nothing is requested; otherwise exactly one pre-translate; a `success` false reply is printed; a rejection throws, as its handler names an undefined variable |
| AutoTranslate.TriggeredForm | lib/commands/trigger-auto-translation.js:17-20 | the request body has the languages, then one `files[]` field per source file holding `<branch>/<file>`, in order, then the three fixed options |
| Config.LoadConfig | lib/config.js:4-32 | a missing or invalid file fails, `null` and a `source` that is not a string throw, and otherwise the pattern is `source` with at most one leading `/` removed, and `projectIdentifier`, `projectKey` and `translation` are copied as they are |
| Config.Defaults | lib/config.js:27-31 | with only `source` given: `nl`, `[nl]`, 3 days, 20 minutes, auto-translation on, no identifier or key |
| Config.FalsyMeansDefault | lib/config.js:27-30 | a configured `0` or empty string is replaced by the default, because of `||` |
| Config.TruthyIsKept | lib/config.js:27-30 | a truthy setting is kept as it is |
| Config.DisabledOnlyByTrue | lib/config.js:31 | auto-translation is disabled exactly by the JSON value `true` |
| Config.SourcePatternRelative | lib/config.js:25 | `/<pattern>` becomes `<pattern>` |
| ConfigManager.ConfigPath | lib/utilities/config-manager.js:12 | a non-empty path is used, and otherwise `crowdin-helper.json` |
| ConfigManager.MissingProperties | lib/utilities/config-manager.js:14-25 | a required property is reported exactly when it is falsy |
| ConfigManager.StoredConfig | lib/utilities/config-manager.js:39-50 | the stored settings have exactly the nine keys of `_config`; `StoredCopies` and `StoredDefaults` state their values |
| ConfigManager.StoredCopies | lib/utilities/config-manager.js:40-48 | `projectId`, `token` and `translation` are stored as they are, the source pattern without one leading `/`, and `disableAutoTranslation` is true exactly for the JSON value `true` |
| ConfigManager.ConfigManager.constructor | lib/utilities/config-manager.js:6 | `_config` starts empty |
| ConfigManager.ConfigManager.Init | lib/utilities/config-manager.js:8-51 | an unreadable or `null` file exits and stores nothing; every falsy required property is reported, and any of them exits; a `source` that is not a string throws; otherwise the settings are stored |
| ConfigManager.ConfigManager.Get | lib/utilities/config-manager.js:53-55 | the stored value, and `undefined` for a key that is neither stored nor inherited |
| ConfigManager.EmptyReportsAll | lib/utilities/config-manager.js:14-25 | an empty object reports all four required properties, in order |
| ConfigManager.AllFalsyAllReported | lib/utilities/config-manager.js:18-25 | when every property is falsy, every one is reported, in order |
| ConfigManager.NoneReportedIffComplete | lib/utilities/config-manager.js:14-29 | nothing is reported exactly when all four required properties are truthy |
| ConfigManager.AgreesWithConfigModule | lib/utilities/config-manager.js:42-47 | the two loaders give the same source pattern and the same minutes setting |
| ConfigManager.StoredDefaults | lib/utilities/config-manager.js:44-49 | a truthy optional setting is kept; a falsy or absent one becomes `[]` for both language lists, 20 minutes, or `master` |
| CrowdinMethods.LegacyLastUpdated | lib/crowdin-methods.js:272-276 | the older lookup: a file's date, else its first child's, else a throw; `LegacyLastUpdatedAgrees` relates it to the newer one |
| CrowdinMethods.LegacyLastUpdatedAgrees | lib/crowdin-methods.js:272-276 | the older lookup agrees with the newer one wherever it returns, and where it throws the newer one gives the oldest possible date |
| CrowdinMethods.LegacyLastUpdatedThrows | lib/crowdin-methods.js:272-276 | the older lookup throws exactly when the first-child path reaches no file |
| CrowdinMethods.FirstUndated | lib/crowdin-methods.js:228-232 | the branches handled before the first whose lookup throws |
| CrowdinMethods.LegacyIssueDeletions | lib/crowdin-methods.js:226-248 | the older loop issues the stale branches' deletions among the branches before the first throwing lookup, and crashes exactly when there is such a branch |
| CrowdinMethods.LegacyDeleteOldBranches | lib/crowdin-methods.js:209-253 | the same gate and criteria as the newer purge, but an empty branch stops it after the deletions already issued |
| CrowdinMethods.EmptyBranchFirst | lib/crowdin-methods.js:272-276 | an empty branch listed first stops the older purge before any deletion, while the newer purge deletes it |
| CrowdinMethods.DatedBranchesSamePurge | lib/crowdin-methods.js:224-248 | when every branch has a dated file, the older purge handles all of them and so deletes the same stale branches as the newer one |
| CrowdinMethods.LegacyTriggerAutoTranslation | lib/crowdin-methods.js:175-207 | the same request and printed failure as the newer version, but as it is not returned it never fails its caller |
| CrowdinMethods.LegacyUploadSources | lib/crowdin-methods.js:64-128 | the same skip test as written and the same plan as the newer upload, and its auto-translation never fails it |
| CrowdinMethods.LegacyDownloadTranslations | lib/crowdin-methods.js:19-62 | the same gate and order as the newer download, and once the gate passes the build and download always follow |
| CrowdinMethods.LegacyCheckProgressOnBranch | lib/crowdin-methods.js:130-173 | on master it never fails; elsewhere it is the newer verdict |

## Left out

- Time zones: dates are milliseconds read in UTC. The source truncates the local calendar fields and reads them back with `Date.UTC`, which moves both dates by the same offset except across a daylight-saving change. West of UTC the oldest-date sentinel falls outside the range of `Date` and its difference becomes `NaN`. That case is not modelled.
- Parsing of `git log` dates: the commit date is an input, and `None` stands for an unparsable one (`NaN`, which never stops the purge).
- Concurrency: the per-file uploads (`Promise.all`) and the deletions run concurrently in the source. The model issues them one after another in list order. So the interleaving of their log lines is not modelled, nor the order in which the requests go out: in the source every file's first request (its `add-directory`, or its upload call when it has no directory) is issued before any file's next one, while the model's trace keeps each file's requests together.
- HTTP transport, `FormData` encoding and file streams: a stream field is the path it reads, and replies are inputs. Rejected HTTP calls are modelled only for pre-translate and for delete-directory, where the source handles them. Elsewhere a rejection would end the command, and that is not modelled.
- `git` subprocesses, glob and file writes: their outputs, the source file list and the archive's entry list are inputs. The archive is the list of its entries and whether reading it broke. Which files a partly broken archive still wrote is not modelled.
- Console text and colours: only the outcomes that the messages report are kept (uploaded files, removed branches, the verdicts).
- Nodes of the Crowdin project tree are assumed to have all fields. The source would read a missing `phrases` or `last_updated` as `undefined`, and that is not modelled.
- lib/utilities/config.js and lib/colors.js are not part of this model. Their values are the `Settings` parameters.
- Config.LoadConfig follows the code where the documented behaviour differs. It checks no required field. A JSON `null` file throws on reading a property. A missing or invalid file throws a `ReferenceError` on the undefined colour constant instead of exiting.
- ConfigManager.ConfigManager.Get: names inherited from `Object.prototype` are not modelled. In the source `get('toString')` or `get('constructor')` returns the inherited function even on the starting `{}`; the model gives `None` for every name not stored.
- ConfigManager.ConfigManager.Init: the `TypeError` (`replace` is not a function) of a truthy, non-string `source` is a `Crashed` outcome. The settings are not changed then.
- Names of the parsed configuration object other than the ones read are not modelled.
- JSON numbers are integers: a fractional setting, such as `daysSinceLastUpdatedToDeleteBranchSafely` of `2.5`, cannot be expressed, and the comparisons against such a threshold are not modelled.
- CrowdinMethods: its branch mapping, `_getGitRemoteBranches`, `_getDateDiff`, the merge check and the skip test are identical to the commands' versions, so they share those definitions and have no rows of their own. Its entry filter reuses `ExtractArchive`, and its per-file plan reuses `UploadFile`.
- CrowdinMethods: the older purge does not wait for its `delete-directory` calls. That changes only when their log lines appear, so the model gives it the same requests and events as the newer purge.
- CrowdinMethods.LegacyTriggerAutoTranslation: the throw of its `catch` handler (the undefined `branch`) rejects a promise nobody waits for. The model assumes a Node.js release before 15, which only warns about an unhandled rejection. From Node.js 15 on, such a rejection ends the process with exit code 1; that crash is not modelled.

## Findings

| source | as written | input that shows it | evidently intended | confidence | as-written member | corrected member |
|---|---|---|---|---|---|---|
| lib/commands/upload-sources.js:58-64 | `_isEverySourceFileSameAsInMaster` (and its copy at lib/crowdin-methods.js:329-335) holds when every source file name occurs in the `git diff --name-only` output, that is when every file changed | files `["f"]` with diff output `"f\n"`: as written the upload is skipped; with an empty diff it goes ahead | the upload is skipped when no source file occurs in the diff, as the function's name, its "Source files are unchenged" message and the `pre-push` command say; the command members follow the code as written, and the corrected upload is given beside them | not executed | UploadSources.ChangedFileSkipped | UploadSources.IntendedUploadSources |
