# rsync-history-backup, modelled in Dafny

rsync-history-backup (`rhb`) backs up a source directory with rsync and keeps
the history of what was overwritten. One backup run works like this:

1. It asks rsync for an itemized dry run.
2. It cleans the report and classifies it into a change log of `created`,
   `deleted` and `changed` names.
3. It writes that log to `<time stamp>.json`.
4. It copies the deleted and changed files from the live copy into a snapshot
   directory named after the time stamp.
5. Only then does it run the destructive live sync.

A separate reader (`BackupInfo`) lists the snapshots that hold a given file.
The command-line glue decides where the settings come from, prints the
dry-run summary and prints version lists. It also finds the local `.rhb`
settings directory by walking up from the working directory.

The model is organised as follows:

- `Wrappers` holds `Option` and `Outcome`. A Python exception becomes
  `Raised(error)`, and `sys.exit(1)` becomes `Raised(SystemExit(1))`.
- `PyText` models `str.replace(pat, '')`, `split`, `join` and `sorted` on
  strings.
- `PosixPath` models `os.path.join`, `basename`, `normpath` and `abspath`.
  The working directory is a parameter.
- `FileSystem` is a snapshot of what the code observes: directories, files
  with sizes, listings in listing order, and the paths where creating or
  opening fails.
- `ChangeReport` models the report clean-up and the three-pattern classifier.
  It works line by line, because every match of the three patterns lies
  within one line.
- `Backup` models the `RsyncBackup` class over a `Host`:
  - the `Host` holds the file system, the written logs, and the replies rsync
    gives to `check_output`;
  - it also keeps a trace of every observable step;
  - each method is proved against pure functions of the state before it
    (`DryRunSteps`, `LogSteps`, `ArchiveSteps`, `RunSteps`, `RunResult`);
  - lemmas about those functions give the ordering and guard properties.
- `Analyzer` models `BackupInfo` and the version index.
- `LocalDir` models `find_rhb_local_dir`.
- `Actions` models `_init_rhb`, `dryrun_action` and `versions_action`.
- `LoadConfig` models the configuration check of `load_config_file` and the branch it takes.

## Model

| member | source | states |
|---|---|---|
| PyText.Remove | rsync_history_backup/basic.py:174-176 | `replace(pat, '')` never lengthens the text and only keeps characters of the input |
| PyText.RemoveDropsChar | rsync_history_backup/basic.py:175 | after deleting `"` no double quote is left in the report |
| PyText.RemoveAbsent | rsync_history_backup/actions.py:118 | deleting a pattern that does not occur leaves the text unchanged |
| PyText.RemoveLeading | rsync_history_backup/actions.py:138 | a text that starts with the pattern loses that leading copy |
| PyText.SplitJoin | rsync_history_backup/basic.py:249 | splitting a newline-join of pieces without newlines gives the pieces back |
| PyText.JoinSplit | rsync_history_backup/basic.py:249 | joining the pieces of a split gives the text back |
| PyText.SortedIsSortedPermutation | rsync_history_backup/basic.py:249-251 | `sorted` returns the same names in code-point order |
| PyText.SortedUnique | rsync_history_backup/basic.py:249-251 | two sorted lists with the same elements are equal, so the insertion sort is the list `sorted` returns |
| PyText.InsertSorted | rsync_history_backup/basic.py:249-251 | inserting into a sorted list keeps it sorted and adds exactly one element |
| PosixPath.Join | rsync_history_backup/basic.py:87 | an absolute second part replaces the first; joining onto an absolute path stays absolute |
| PosixPath.JoinAppends | rsync_history_backup/analyzer.py:39 | a relative part is appended after at most one separator, and the first part is a prefix |
| PosixPath.Basename | rsync_history_backup/basic.py:36 | the base name is the longest separator-free suffix |
| PosixPath.BasenameOfJoin | rsync_history_backup/analyzer.py:35 | the base name of `join(a, w)` for a separator-free `w` is `w` |
| PosixPath.NormPathIdempotent | rsync_history_backup/main.py:34 | normalising a normalised path changes nothing |
| PosixPath.ParentOfRender | rsync_history_backup/main.py:32-34 | `normpath(join(p, '..'))` drops the last component of a normalised path; at the root it gives the root back |
| PosixPath.ParentIsShorter | rsync_history_backup/main.py:34 | moving to the parent strictly shortens a normalised path other than the root |
| ChangeReport.Clean | rsync_history_backup/basic.py:174-176 | the cleaned report has no double quote and is no longer than the raw one |
| ChangeReport.FirstMatch | rsync_history_backup/basic.py:191-198 | the search finds the leftmost position where a pattern fits, and nothing fits before it |
| ChangeReport.Captured | rsync_history_backup/basic.py:191-198 | a line yields a capture exactly when the pattern fits somewhere on it |
| ChangeReport.FoundMembership | rsync_history_backup/basic.py:198 | a name is in a list exactly when it is non-empty and some line captures it under that pattern |
| ChangeReport.FoundBound | rsync_history_backup/basic.py:198 | each line adds at most one name to each list, and no name is empty |
| ChangeReport.FoundConcat | rsync_history_backup/basic.py:198 | the lists follow report order: the lists of a concatenated report are the concatenated lists |
| ChangeReport.WellFormedLine | rsync_history_backup/basic.py:169 | for a line in the shape `--out-format` produces (flags, bar, name, bar), a pattern captures exactly the name when it accepts the flags, and nothing otherwise |
| ChangeReport.DeletionFlags | rsync_history_backup/basic.py:192 | deletion flags fit the deleted pattern only |
| ChangeReport.SampleDeletion | rsync_history_backup/basic.py:192 | the deletion line of `old.txt` goes to `deleted` only |
| ChangeReport.CreatedAndChangedOverlap | rsync_history_backup/basic.py:191-193 | the lists are not disjoint: a `>f.........` line is both created and changed |
| ChangeReport.RootOnlyReportIsEmpty | rsync_history_backup/basic.py:174-181 | a report made only of quoted root lines cleans to the empty text, which reads as "no changes" |
| ChangeReport.Classify | rsync_history_backup/basic.py:188-200 | each list holds at most one name per report line, and every name is non-empty and free of line breaks |
| ChangeReport.CapturedInLine | rsync_history_backup/basic.py:191-198 | a captured name is made only of characters of its line |
| ChangeReport.FoundInLines | rsync_history_backup/basic.py:196-198 | the names found in the lines of a report split at line breaks contain no line break and are not empty |
| ChangeReport.SampleCreated | rsync_history_backup/basic.py:191 | the line `>f+++++++++\|new.txt\|` goes to `created` only |
| ChangeReport.SampleChanged | rsync_history_backup/basic.py:193 | the line `.f..t......\|meta.txt\|` goes to `changed` only |
| Backup.Host.CheckOutput | rsync_history_backup/basic.py:159-162 | rsync's reply becomes the output text, or CalledProcessError when rsync fails; the call is traced |
| Backup.Host.System | rsync_history_backup/basic.py:154-157 | `os.system` runs the call and its status is ignored |
| Backup.Host.MakeDirs | rsync_history_backup/basic.py:167-168 | `os.makedirs` either raises the error the file system decides, changing nothing, or creates the directory and records the step |
| Backup.Host.MakeDir | rsync_history_backup/basic.py:243-247 | `os.mkdir` raises FileExistsError over a file, or the error the file system decides, changing nothing; otherwise it creates the directory and records the step |
| Backup.Host.WriteLog | rsync_history_backup/basic.py:207-209 | `open(path, 'w')` raises IsADirectoryError on a directory, or the error the file system decides, writing nothing; otherwise the log is stored under the path |
| Backup.CurrentDir | rsync_history_backup/basic.py:83-87 | the live copy lies inside the destination for a relative name, is the destination itself for an empty name, and is the name itself for an absolute one |
| Backup.HistoryDir | rsync_history_backup/basic.py:89-95 | the history directory lies inside the source in local-history mode and inside the live copy otherwise |
| Backup.LogDir | rsync_history_backup/basic.py:97-103 | the log directory lies inside the source in local-history mode and inside the live copy otherwise, and is never the history directory |
| Backup.LogFileNamed | rsync_history_backup/basic.py:207-209 | the log file ends in `<time stamp>.json` and lies inside the log directory |
| Backup.HistoryTimeStampDir | rsync_history_backup/basic.py:111-118 | ValueError exactly while the time stamp is unset or empty |
| Backup.SnapshotInsideHistory | rsync_history_backup/basic.py:118 | the snapshot directory lies inside the history directory and ends in the time stamp |
| Backup.ExcludeOptions | rsync_history_backup/basic.py:40-55 | in local-history mode: include history, include log, exclude `/.rhb/*`; otherwise exclude `/.rhb/`; then the user's exclude file if it is a file, else `rsync-ignore.txt` if it is a file |
| Backup.RsyncBackup.constructor | rsync_history_backup/basic.py:18-58 | the source is absolute with a trailing `/`, the destination is absolute, a name left out is the base name of the source argument as given, and the exclusions go into the sync options only |
| Backup.TrailingSlashNameAsWritten | rsync_history_backup/basic.py:36 | settings built from source `docs/` with no name have the empty name, so the live copy that the dry run and the sync target is the destination itself |
| Backup.DefaultNameIsComponent | rsync_history_backup/basic.py:36 | with the name taken from the normalised source, a non-root source always gives a proper directory name |
| Backup.ArchiveListRoundTrip | rsync_history_backup/basic.py:249-251 | the `--files-from` list names exactly the deleted and changed files, sorted, one per line |
| Backup.ClassifiedArchiveList | rsync_history_backup/basic.py:249-251 | for every classified report, the `--files-from` list reads back as exactly the names at risk |
| Backup.RsyncBackup.GetChanges | rsync_history_backup/basic.py:164-186 | a live copy that cannot be created raises with nothing changed; otherwise it is made if missing and the time stamp is fixed; an empty cleaned report returns False and keeps the old change log; otherwise the log is the classified report; a failed rsync raises |
| Backup.RsyncBackup.DryRun | rsync_history_backup/basic.py:291-313 | FileNotFoundError with nothing done when the destination is missing, the `makedirs` error when the live copy cannot be created; otherwise the steps and state of `DryRunSteps` and `_get_changes` |
| Backup.DryRunStepsFacts | rsync_history_backup/basic.py:302-311 | the dry run only creates directories and asks for the report: no log, no archive copy, no sync |
| Backup.RsyncBackup.SaveFileLogs | rsync_history_backup/basic.py:202-231 | makes the log directory if missing and writes the log to `<time stamp>.json`, returning True; an error from `makedirs` or `open` propagates, and nothing is written then |
| Backup.LogStepsFacts | rsync_history_backup/basic.py:202-209 | writing the log writes at most one file, named after the time stamp, exactly when it raises nothing, and runs no rsync |
| Backup.RsyncBackup.MoveToHistory | rsync_history_backup/basic.py:233-267 | returns False when history is off and True when nothing is at risk, with nothing done in both cases; otherwise makes the directories and copies the sorted at-risk list into the snapshot; an error from `mkdir` stops it before the copy |
| Backup.RsyncBackup.MakeSnapshotDirs | rsync_history_backup/basic.py:243-247 | creates the history directory, then the snapshot directory, each only if missing, and stops at the first exception |
| Backup.ArchiveStepsFacts | rsync_history_backup/basic.py:243-262 | the only rsync call when archiving is the copy into `history/<time stamp>`; it comes last; it is not made when creating a directory raised; if it fails the step raises CalledProcessError |
| Backup.RsyncBackup.NewBackup | rsync_history_backup/basic.py:269-274 | the live sync with the progress flag, run with `os.system`, returns True |
| Backup.RsyncBackup.RunBackup | rsync_history_backup/basic.py:276-289 | the steps and outcome of a run are `RunSteps` and `RunResult`; the time stamp, the cleaned report and the change log are the dry run's when it asked rsync, and the old ones otherwise |
| Backup.RsyncBackup.SaveArchiveSync | rsync_history_backup/basic.py:285-287 | log, archive copy and sync, stopping at the first exception, with the steps and outcome of `SessionSteps` and `SessionResult` |
| Backup.SessionInStageOrder | rsync_history_backup/basic.py:285-287 | log, then archive, then sync |
| Backup.SessionStamps | rsync_history_backup/basic.py:207-209 | the one log file and the archive copy share the run's time stamp; the only process run is the live sync |
| Backup.SessionGuards | rsync_history_backup/basic.py:285-287 | the sync runs exactly when neither the log nor the archive step raised; a log that cannot be written stops the session before the archive copy; a failed archive copy ends it without a sync |
| Backup.RunInStageOrder | rsync_history_backup/basic.py:276-289 | a whole run is in stage order: dry run, log, archive, sync |
| Backup.RunStopsEarly | rsync_history_backup/basic.py:281-283 | a missing destination raises FileNotFoundError and a live copy that cannot be created raises OSError, both with no steps; a fresh object with an empty cleaned report returns True after the dry run only |
| Backup.RunStamps | rsync_history_backup/basic.py:172 | the log file and the archive copy of a run use the time stamp fixed by the dry run, and the change log the run went on with |
| Backup.RunGuards | rsync_history_backup/basic.py:285-289 | the sync follows a written log and, when files are at risk, a successful archive copy; a run that wrote no log neither archived nor synced; a failed archive copy means no sync |
| Analyzer.Open | rsync_history_backup/analyzer.py:12-23 | FileNotFoundError when the location is not a directory; `save_history` exactly when the history directory lists an entry |
| Analyzer.LogDir | rsync_history_backup/analyzer.py:29-31 | `<location>/log/<name>` lies inside the location for a relative name and has the backup's name as base name |
| Analyzer.HistoryDir | rsync_history_backup/analyzer.py:33-35 | `<location>/history/<name>` lies inside the location for a relative name and has the backup's name as base name |
| Analyzer.CurrentDir | rsync_history_backup/analyzer.py:37-39 | `<location>/current/<name>` lies inside the location for a relative name and has the backup's name as base name |
| Analyzer.ReaderDirsDistinct | rsync_history_backup/analyzer.py:29-39 | for a relative name the log, history and live-copy directories are three different directories |
| Analyzer.GetFilesVersions | rsync_history_backup/analyzer.py:80-95 | the keys are exactly the requested paths; each value is the snapshots holding that path in listing order; everything is empty without a history directory |
| Analyzer.ScanHistory | rsync_history_backup/analyzer.py:89-94 | the outer loop visits the snapshots in listing order, starting from an empty entry per path |
| Analyzer.AddVersions | rsync_history_backup/analyzer.py:91-94 | one snapshot appends its name to the entry of every requested path it holds |
| Analyzer.GetFileVersions | rsync_history_backup/analyzer.py:71-78 | the versions of one path are its entry in `get_files_versions([p])` |
| Analyzer.VersionsOfOnePath | rsync_history_backup/analyzer.py:90-95 | a snapshot is listed exactly when it holds the path; the list follows listing order and has no repeats |
| Analyzer.HitsMembership | rsync_history_backup/analyzer.py:92-94 | a snapshot is in the hits exactly when it is listed and holds the path |
| Analyzer.HitsInListingOrder | rsync_history_backup/analyzer.py:90-94 | the hits are a subsequence of the listing |
| Analyzer.HitsAreFilter | rsync_history_backup/analyzer.py:89-94 | with one request, the hits are the listed snapshots that hold the path, in listing order |
| Analyzer.HitsDistinct | rsync_history_backup/analyzer.py:90-94 | no snapshot is listed twice for one path |
| Analyzer.HitsRepeat | rsync_history_backup/analyzer.py:87-94 | a path requested k times gets each snapshot k times |
| Analyzer.NoHistoryNoVersions | rsync_history_backup/analyzer.py:21-22 | a backup opened without history reports no versions |
| Analyzer.FileContent | rsync_history_backup/analyzer.py:57-64 | None when the chosen path is not a file or is larger than 20·1024² bytes |
| Analyzer.ContentLocation | rsync_history_backup/analyzer.py:58-61 | a real version reads inside that snapshot; no version, `current` or `None` reads inside the live copy |
| Analyzer.LayoutsDiffer | rsync_history_backup/analyzer.py:33-35 | the reader's history directory differs from the one the backup writes to |
| LocalDir.FindRhbLocalDir | rsync_history_backup/main.py:26-34 | the result is the nearest of the directory and its ancestors that holds `.rhb/config.json`; the loop ends at the root |
| LocalDir.NearestIsClosest | rsync_history_backup/main.py:27-34 | a directory that is found holds the file, is the start or an ancestor of it, and no closer directory holds one |
| LocalDir.NearestNone | rsync_history_backup/main.py:32-33 | nothing is found exactly when neither the start nor any ancestor holds the file |
| LocalDir.SelfFirst | rsync_history_backup/main.py:30-31 | a start directory that holds the file is returned itself |
| Actions.InitRhb | rsync_history_backup/actions.py:55-81 | precedence: a config file (NameError, since it opens an undefined name), then source and destination together, then the local directory, then exit 1 |
| Actions.GivenSettingsWin | rsync_history_backup/actions.py:58-69 | the local directory makes no difference once a config file or both paths are given |
| Actions.FoundLocalDirIsUsed | rsync_history_backup/actions.py:70-74 | with no paths given, the directory the upward search finds is used, and its config file exists |
| Actions.ListNames | rsync_history_backup/actions.py:117-118 | lists a category's names in order, each with `source + '/'` deleted |
| Actions.SummarizeChanges | rsync_history_backup/actions.py:111-118 | the category loop produces the summary of the change log |
| Actions.ChangeLogSummary | rsync_history_backup/actions.py:111-118 | one section per non-empty key, in the order created, deleted, changed; each gives the key's size and lists its names exactly when there are at most 100 |
| Actions.EmptyKeysSkipped | rsync_history_backup/actions.py:112-113 | every section belongs to a non-empty key |
| Actions.ListedNameUnchanged | rsync_history_backup/actions.py:118 | the source ends with `/`, so a name without a doubled separator is listed as it is |
| Actions.DryrunOutcome | rsync_history_backup/actions.py:102-120 | a missing destination exits with status 1; a live copy that cannot be created raises OSError, which is not caught; a failed rsync raises; an empty cleaned report prints nothing; otherwise the summary of this dry run's report |
| Actions.DryrunAction | rsync_history_backup/actions.py:99-120 | the action's steps are the dry run's, and its outcome is `DryrunOutcome` |
| Actions.StripLeadingSlash | rsync_history_backup/actions.py:147-148 | one leading `/` is dropped from a non-empty name, and nothing else changes |
| Actions.QueriedName | rsync_history_backup/actions.py:131-148 | the queried name is no longer than the absolute path and uses only its characters |
| Actions.RelativeName | rsync_history_backup/actions.py:138-148 | a path inside the prefix directory becomes the path relative to it |
| Actions.VersionListFacts | rsync_history_backup/actions.py:150-154 | `current` comes first exactly when the live file exists, followed by the snapshots holding the file, in listing order and without repeats |
| Actions.VersionList | rsync_history_backup/actions.py:150-154 | `current` comes first when the live file exists; every other entry is a listed snapshot that holds the file |
| Actions.VersionsAreSnapshots | rsync_history_backup/analyzer.py:90-94 | every version of a file is a listed snapshot that holds it |
| Actions.PrintVersions | rsync_history_backup/actions.py:150-154 | builds the version list by append and `+=` |
| Actions.DirListingsComplete | rsync_history_backup/actions.py:165-170 | every file of the queried directory is listed, with its version list |
| Actions.DirListingsSound | rsync_history_backup/actions.py:165-170 | every listing belongs to a file of the queried directory |
| Actions.VersionsOutcome | rsync_history_backup/actions.py:123-175 | an empty path exits before any configuration is read; no settings exit; a backup without history returns False and lists nothing |
| Actions.VersionsShownFacts | rsync_history_backup/actions.py:165-172 | every listing carries its file's version list; a path that is not a directory lists at most one file |
| Actions.ListDirectory | rsync_history_backup/actions.py:165-170 | the loop over a directory lists every entry that is a file, in listing order, with its version list |
| Actions.VersionsAction | rsync_history_backup/actions.py:123-175 | the action's loop produces `VersionsOutcome` |
| LoadConfig.MissingDestinationAccepted | rsync_history_backup/basic.py:67-81 | as written, `{"source"}` passes the check and fails building the object, and `{}` passes and returns nothing; the intended check refuses both |
| LoadConfig.AsWrittenMissesOnlyNoDestination | rsync_history_backup/basic.py:67-69 | the check as written and the intended one agree on every configuration with a destination, and differ only on some without one |
| LoadConfig.LoadAsWritten | rsync_history_backup/basic.py:67-81 | as written, a configuration is refused only with a destination and no source; without a destination, `source` fails building the object and no source key returns nothing |
| LoadConfig.Load | rsync_history_backup/basic.py:67-81 | as intended, whatever passes has a destination and a source or a list of sources, and builds objects; a destination with `source` builds one |

## Left out

- Running processes is not modelled. rsync is a queue of replies: each `check_output` call takes the next reply, and an exhausted queue counts as a failed process. What rsync does to the files is not modelled. `os.system` is recorded, and its status is ignored as in the code.
- `datetime.now().strftime(...)` is left out. The time stamp is a parameter.
- JSON encoding and decoding are left out. A log is a `ChangeLog` value, and a parsed configuration is a `Config` value. `KeyError`s from missing keys are not modelled.
- The temporary file of the archive copy (`mkstemp`, write, `os.close`, `os.remove`) is left out. Only its content, the newline-joined sorted list, is modelled. The code removes it only when the copy succeeds.
- UTF-8 decoding of rsync's output is left out. The report is a string.
- The file system is keyed by the exact path strings the code passes. Symbolic links are not modelled. Relative paths and `..` are not resolved against the working directory for `isdir`, `isfile` and `listdir`. `normpath` keeps a leading `//` in POSIX, and that case is not modelled.
- `load_config_file` is modelled as its validity check and the branch it takes (lines 67-81), by the keys present. The objects built depend on JSON input and are not modelled, so `Actions.InitRhb` returns which file would be loaded. The `sources` branch passes `dict(set(tmp) & set(src))` to the constructor, and what that builds is not modelled.
- `get_file_info` and `serialize` are not part of this model. `magic` is never imported, and `serialize` mutates the object's attributes.
- `init_action`, `get_action`, `backup_action`, `_get_service_info`, parser.py, utils.py and `main.run` are not part of this model. They are interactive prompts, unfinished code, argument parsing, colouring, size formatting and logging.
- Logging and the exact printed text are left out. Summaries and version lists are modelled as the data they print.
- Concurrent runs are not modelled. The code takes no lock.
- Backup.RsyncBackup.RunBackup: does not restate the final file system, logs and reply queue. They follow from the ensures of `DryRun`, `SaveFileLogs`, `MoveToHistory` and `NewBackup`.
- Why an OS call fails is not modelled. The file system's `blocked` set stands for permissions, a file where a parent directory should be, or a read-only mount. `os.makedirs` then raises OSError. `os.mkdir` raises FileExistsError over a file and otherwise OSError. `open(path, 'w')` raises IsADirectoryError on a directory and otherwise OSError. A failure inside `json.dump` after `open` succeeded is not modelled.
- Backup.RsyncBackup.constructor: an empty `name` or `exclude_file` stands for the argument left out, and `rsync_exe` is not modelled. The name left out is the base name of the raw argument, as in the code (see Findings).
- Analyzer.FileContent: returns the path that would be read, not the file's contents.
- LocalDir.FindRhbLocalDir: compares the parent with `==` where the code uses `is`. The code's identity test may never succeed at the root, depending on how the interpreter shares string objects.
- Actions.DryrunAction: starts from the backup object that `_init_rhb` produced. The choice of that object is `Actions.InitRhb`.

Where the documented design and the code differ, the model follows the code:

- The three lists of a change log may overlap (`CreatedAndChangedOverlap`).
- A run stops after the dry run only when the cleaned report is empty. A report whose lines match nothing yields three empty lists, and the run still writes a log and syncs.
- A reused object carries its previous change log into a run whose report is empty.
- The time stamp is fixed when changes are looked for, not when the log is written.
- The `current` sentinel is added by `versions_action`, not by the version index.
- The version index reads `<location>/history/<name>`, but backups write to `<destination>/<name>/.rhb/history`. A snapshot written by a run is therefore not found by the reader for the same destination and name (`LayoutsDiffer`).
- A failed live sync is not reported, because its status is ignored.

## Findings

| source | as written | input that shows it | evidently intended | confidence | as-written member | corrected member |
|---|---|---|---|---|---|---|
| rsync_history_backup/basic.py:36 | the default name is `basename(source)` of the raw argument | source `docs/` with no name gives the empty name, and the live copy becomes the destination directory itself (`/backup/`), which the sync then overwrites with `--delete` | the base name of the normalised absolute source | medium, not executed | Backup.TrailingSlashNameAsWritten | Backup.DefaultNameIsComponent |
| rsync_history_backup/basic.py:67-68 | `not 'destination' not in cfg and (...)` refuses a configuration only when it has a destination and no source | `{"source": "/x"}` passes the check and then fails building the object | refuse a configuration that lacks a destination or lacks every source | high, not executed | LoadConfig.MissingDestinationAccepted | LoadConfig.Load |
