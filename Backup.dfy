/** One backup run of `RsyncBackup`: the paths it derives from its settings,
    the options it hands to rsync, and the fixed order of its steps (dry run,
    change log, archive of the files at risk, live sync).

    The file system, rsync and the run log live in a `Host`. rsync is a
    stand-in that answers `check_output` calls from a queue of replies
    (report text, or a failed process) and records every call; `os.system`
    calls are recorded and always succeed, as the code ignores their status.
    Every observable step is appended to the host's trace, so the order of
    the steps can be stated. */
module Backup {
  import opened Wrappers
  import opened PyText
  import opened PosixPath
  import opened FileSystem
  import opened ChangeReport

  const DefaultSyncOptions: seq<string> :=
    ["--recursive", "--update", "--delete", "--owner", "--group", "--times",
     "--links", "--safe-links", "--super", "--one-file-system", "--devices"]

  const DefaultHistOptions: seq<string> :=
    ["--update", "--owner", "--group", "--times", "--links", "--super"]

  /** The options put in front of the sync options for the dry run. */
  const DryRunFlags: seq<string> :=
    ["--dry-run", "--itemize-changes", "--out-format=\"%i|%n|\""]

  /** The option added to the sync options for the live sync. */
  const ProgressFlag: string := "--info=progress2"

  const ExcludeRhb: string := "--exclude=/.rhb/"
  const IncludeHistory: string := "--include=/.rhb/history/"
  const IncludeLog: string := "--include=/.rhb/log/"
  const ExcludeRhbContents: string := "--exclude=/.rhb/*"
  const IgnoreFileName: string := "rsync-ignore.txt"

  // ---------------------------------------------------------------------
  // the host: file system, run log, rsync stand-in and trace

  /** One rsync invocation. For the archive copy, `fileList` is the text of
      the temporary file passed with `--files-from`. */
  datatype Call = Call(src: string, dst: string, options: seq<string>, fileList: Option<string>)

  /** What rsync answers to a `check_output` call. */
  datatype Reply = Output(text: string) | Failed

  /** The observable steps of a run. */
  datatype Effect =
    | MadeDirs(path: string)                 // os.makedirs
    | MadeDir(path: string)                  // os.mkdir
    | LogWritten(path: string, log: ChangeLog)
    | Asked(call: Call, reply: Reply)        // subprocess.check_output
    | Ran(call: Call)                        // os.system

  /** The reply the next `check_output` call gets; once the queue is used up,
      every call fails. */
  function NextReply(replies: seq<Reply>): Reply
  {
    if replies == [] then Failed else replies[0]
  }

  function RestReplies(replies: seq<Reply>): seq<Reply>
  {
    if replies == [] then [] else replies[1..]
  }

  class Host {
    var fs: Fs
    var logs: map<string, ChangeLog>
    var replies: seq<Reply>
    var trace: seq<Effect>

    constructor (fs: Fs, replies: seq<Reply>)
      ensures this.fs == fs && this.replies == replies
      ensures logs == map[] && trace == []
    {
      this.fs := fs;
      this.replies := replies;
      logs := map[];
      trace := [];
    }

    /** `os.makedirs(p)` for a path that does not exist: the exception it
        raises, if any; otherwise `p` is a directory afterwards. */
    method MakeDirs(p: string) returns (err: Option<PyError>)
      modifies this
      ensures err == MakedirsError(old(fs), p)
      ensures fs == (if err.None? then AddDir(old(fs), p) else old(fs))
      ensures trace == old(trace) + (if err.None? then [MadeDirs(p)] else [])
      ensures logs == old(logs) && replies == old(replies)
    {
      err := MakedirsError(fs, p);
      if err.None? {
        fs := AddDir(fs, p);
        trace := trace + [MadeDirs(p)];
      }
    }

    /** `os.mkdir(p)` for a path that is not a directory: the exception it
        raises, if any; otherwise `p` is a directory afterwards. */
    method MakeDir(p: string) returns (err: Option<PyError>)
      modifies this
      ensures err == MkdirError(old(fs), p)
      ensures fs == (if err.None? then AddDir(old(fs), p) else old(fs))
      ensures trace == old(trace) + (if err.None? then [MadeDir(p)] else [])
      ensures logs == old(logs) && replies == old(replies)
    {
      err := MkdirError(fs, p);
      if err.None? {
        fs := AddDir(fs, p);
        trace := trace + [MadeDir(p)];
      }
    }

    /** `json.dump(log, open(p, 'w'))`: the exception `open` raises, if any;
        otherwise the log file at `p` holds `log`. */
    method WriteLog(p: string, log: ChangeLog) returns (err: Option<PyError>)
      modifies this
      ensures err == OpenError(old(fs), p)
      ensures logs == (if err.None? then old(logs)[p := log] else old(logs))
      ensures trace == old(trace) + (if err.None? then [LogWritten(p, log)] else [])
      ensures fs == old(fs) && replies == old(replies)
    {
      err := OpenError(fs, p);
      if err.None? {
        logs := logs[p := log];
        trace := trace + [LogWritten(p, log)];
      }
    }

    /** `subprocess.check_output`: the report text, or CalledProcessError
      when the process fails. */
    method CheckOutput(call: Call) returns (r: Outcome<string>)
      modifies this
      ensures var reply := NextReply(old(replies));
              && r == (if reply.Output? then Ok(reply.text) else Raised(CalledProcessError))
              && trace == old(trace) + [Asked(call, reply)]
      ensures replies == RestReplies(old(replies))
      ensures fs == old(fs) && logs == old(logs)
    {
      var reply := NextReply(replies);
      replies := RestReplies(replies);
      trace := trace + [Asked(call, reply)];
      r := if reply.Output? then Ok(reply.text) else Raised(CalledProcessError);
    }

    /** `os.system`: runs the command; its exit status is not looked at. */
    method System(call: Call)
      modifies this
      ensures trace == old(trace) + [Ran(call)]
      ensures fs == old(fs) && logs == old(logs) && replies == old(replies)
    {
      trace := trace + [Ran(call)];
    }
  }

  // ---------------------------------------------------------------------
  // settings and the paths derived from them

  /** The settings fixed by the constructor. */
  datatype Settings = Settings(
    source: string,
    destination: string,
    name: string,
    saveHistory: bool,
    localHistory: bool,
    excludeOption: seq<string>,
    syncOptions: seq<string>,
    histOptions: seq<string>)

  /** The live copy of the source: the destination joined with the name. A
      relative name gives a directory inside the destination; an empty name
      gives the destination itself; an absolute name replaces the
      destination, as `os.path.join` does. */
  function CurrentDir(s: Settings): (r: string)
    ensures !IsAbs(s.name) ==> s.destination <= r && |r| <= |s.destination| + |s.name| + 1
    ensures s.name == "" ==> r == s.destination || r == s.destination + "/"
    ensures IsAbs(s.name) ==> r == s.name
  {
    if IsAbs(s.name) then Join(s.destination, s.name)
    else
      JoinAppends(s.destination, s.name);
      Join(s.destination, s.name)
  }

  /** The `.rhb` directory that holds the history and the logs: the
      source's in local-history mode, the live copy's otherwise. */
  function RhbDir(s: Settings): string
  {
    if s.localHistory then Join(s.source, ".rhb") else Join(CurrentDir(s), ".rhb")
  }

  /** `Join(a, w)` for a relative `w`: its length depends on `a` only
      through whether a separator has to be put in between. */
  lemma JoinLength(a: string, w: string)
    requires !IsAbs(w)
    ensures |Join(a, w)| == |a| + |w| + (if a == [] || a[|a| - 1] == '/' then 0 else 1)
  {
  }

  /** The directory holding one snapshot per run. It lies inside the `.rhb`
      directory: the source's in local-history mode, the live copy's
      otherwise. */
  function HistoryDir(s: Settings): (r: string)
    ensures RhbDir(s) < r
    ensures s.localHistory ==> s.source < r
    ensures !s.localHistory ==> CurrentDir(s) < r
  {
    var rhb := RhbDir(s);
    JoinAppends(rhb, "history");
    JoinAppends(s.source, ".rhb");
    JoinAppends(CurrentDir(s), ".rhb");
    Join(rhb, "history")
  }

  /** The directory holding one change log per run, beside `HistoryDir` in
      the same `.rhb` directory, and never the same directory. */
  function LogDir(s: Settings): (r: string)
    ensures RhbDir(s) < r
    ensures s.localHistory ==> s.source < r
    ensures !s.localHistory ==> CurrentDir(s) < r
    ensures r != HistoryDir(s)
  {
    var rhb := RhbDir(s);
    JoinAppends(rhb, "log");
    JoinAppends(s.source, ".rhb");
    JoinAppends(CurrentDir(s), ".rhb");
    JoinLength(rhb, "log");
    JoinLength(rhb, "history");
    Join(rhb, "log")
  }

  /** `"{}".format(time_stamp)`: an unset time stamp prints as `None`. */
  function StampText(ts: Option<string>): string
  {
    if ts.Some? then ts.value else "None"
  }

  /** The change-log file of the run with time stamp `ts`. */
  function LogFile(s: Settings, ts: Option<string>): string
  {
    Join(LogDir(s), StampText(ts) + ".json")
  }

  /** The log file is named after the time stamp with the suffix `.json`,
      and lies inside the log directory unless the time stamp is an absolute
      path (the time format makes it a date). */
  lemma LogFileNamed(s: Settings, ts: Option<string>)
    ensures var r := LogFile(s, ts);
            && |r| >= |StampText(ts)| + 5 && r[|r| - |StampText(ts)| - 5..] == StampText(ts) + ".json"
            && (!IsAbs(StampText(ts)) ==> LogDir(s) < r)
  {
    var file := StampText(ts) + ".json";
    if !IsAbs(file) {
      JoinAppends(LogDir(s), file);
    }
  }

  /** `history_time_stamp_dir`: ValueError while the time stamp is unset or
      empty, else the snapshot directory of this run. */
  function HistoryTimeStampDir(s: Settings, ts: Option<string>): (r: Outcome<string>)
    ensures r.Raised? <==> ts.None? || ts.value == ""
    ensures r.Raised? ==> r.error == ValueError
  {
    if ts.None? || ts.value == "" then Raised(ValueError)
    else Ok(Join(HistoryDir(s), ts.value))
  }

  /** A time stamp (which never starts with a separator) names a directory
      inside the history directory, ending in the time stamp. */
  lemma SnapshotInsideHistory(s: Settings, ts: string)
    requires ts != "" && !IsAbs(ts)
    ensures var r := HistoryTimeStampDir(s, Some(ts));
            r.Ok? && HistoryDir(s) <= r.value && r.value[|r.value| - |ts|..] == ts
            && |r.value| - |ts| - 1 <= |HistoryDir(s)| <= |r.value| - |ts|
  {
    JoinAppends(HistoryDir(s), ts);
  }

  /** The exclusion options: keep `.rhb` out of the live copy (in
      local-history mode, all of it except its history and log), then the
      user's exclude file if it is a file, else `rsync-ignore.txt` in the
      source if that is a file. */
  function ExcludeOptions(localHistory: bool, excludeFile: string, fs: Fs, source: string): (r: seq<string>)
    ensures localHistory ==> |r| >= 3 && r[..3] == [IncludeHistory, IncludeLog, ExcludeRhbContents]
    ensures !localHistory ==> |r| >= 1 && r[0] == ExcludeRhb
    ensures var fixed := if localHistory then 3 else 1;
            && (excludeFile != "" && IsFile(fs, excludeFile) ==>
                  |r| == fixed + 1 && r[fixed] == "--exclude-from=" + excludeFile)
            && (!(excludeFile != "" && IsFile(fs, excludeFile)) && IsFile(fs, Join(source, IgnoreFileName)) ==>
                  |r| == fixed + 1 && r[fixed] == "--exclude-from=" + Join(source, IgnoreFileName))
            && (!(excludeFile != "" && IsFile(fs, excludeFile)) && !IsFile(fs, Join(source, IgnoreFileName)) ==>
                  |r| == fixed)
  {
    (if localHistory then [IncludeHistory, IncludeLog, ExcludeRhbContents] else [ExcludeRhb])
    + (if excludeFile != "" && IsFile(fs, excludeFile) then ["--exclude-from=" + excludeFile]
       else if IsFile(fs, Join(source, IgnoreFileName)) then ["--exclude-from=" + Join(source, IgnoreFileName)]
       else [])
  }

  /** The name of a backup whose name was not given: the base name of the
      normalised absolute source path. */
  function DefaultName(cwd: string, source: string, name: string): string
    requires IsAbs(cwd)
  {
    if name != "" then name else Basename(AbsPath(cwd, source))
  }

  /** The default name as the constructor writes it: the base name of the
      source argument exactly as given. */
  function DefaultNameAsWritten(source: string, name: string): string
  {
    if name != "" then name else Basename(source)
  }

  /** With the name as written, a source given with a trailing slash gets the
      empty name, so the live copy, which the dry run and the live sync
      target, is the destination directory itself. */
  lemma TrailingSlashNameAsWritten(s: Settings)
    requires s.name == DefaultNameAsWritten("docs/", "")
    ensures s.name == ""
    ensures CurrentDir(s) == s.destination || CurrentDir(s) == s.destination + "/"
    ensures DryRunCall(s).dst == CurrentDir(s) && SyncCall(s).dst == CurrentDir(s)
  {
  }

  /** The base name of a normalised path other than the root is its last
      component. */
  lemma BasenameOfRender(cs: seq<string>)
    requires AllComponents(cs) && cs != []
    ensures Basename(Render(cs)) == cs[|cs| - 1]
  {
    var front := cs[..|cs| - 1];
    assert cs == front + [cs[|cs| - 1]];
    JoinWithSnoc(front, cs[|cs| - 1], '/');
    if front == [] {
      assert Render(cs) == "" + "/" + cs[0];
      BasenameAfterSeparator("", cs[0]);
    } else {
      assert Render(cs) == Render(front) + "/" + cs[|cs| - 1];
      BasenameAfterSeparator(Render(front), cs[|cs| - 1]);
    }
  }

  /** With the default name taken from the normalised source, a source that
      is not the root always gives a proper name: non-empty, no separator, not
      `.` or `..`. So the live copy is a directory of its own inside the
      destination. */
  lemma DefaultNameIsComponent(cwd: string, source: string)
    requires IsAbs(cwd)
    requires AbsPath(cwd, source) != "/"
    ensures IsComponent(DefaultName(cwd, source, ""))
  {
    var cs := Components(Join(cwd, source));
    if cs != [] {
      BasenameOfRender(cs);
    }
  }

  // ---------------------------------------------------------------------
  // the rsync calls of a run

  /** The dry run: source into the live copy, itemized. */
  function DryRunCall(s: Settings): Call
  {
    Call(s.source, CurrentDir(s), DryRunFlags + s.syncOptions, None)
  }

  /** The names copied into the history: deleted and changed, sorted. */
  function AtRisk(log: ChangeLog): seq<string>
  {
    Sorted(log.deleted + log.changed)
  }

  /** The archive copy: the files at risk, from the live copy into the
      snapshot directory, with the history options. */
  function ArchiveCall(s: Settings, snapshot: string, log: ChangeLog): Call
  {
    Call(CurrentDir(s), snapshot, s.histOptions, Some(JoinWith(AtRisk(log), '\n')))
  }

  /** The live sync: source into the live copy. */
  function SyncCall(s: Settings): Call
  {
    Call(s.source, CurrentDir(s), s.syncOptions + [ProgressFlag], None)
  }

  /** The file list of the archive copy names exactly the deleted and changed
      files, in sorted order, one per line. */
  lemma ArchiveListRoundTrip(log: ChangeLog)
    requires log.deleted + log.changed != []
    requires forall n :: n in log.deleted + log.changed ==> '\n' !in n
    ensures Split(JoinWith(AtRisk(log), '\n'), '\n') == AtRisk(log)
    ensures IsSorted(AtRisk(log)) && multiset(AtRisk(log)) == multiset(log.deleted + log.changed)
  {
    var risk := AtRisk(log);
    SortedIsSortedPermutation(log.deleted + log.changed);
    assert |risk| >= 1 by {
      assert |multiset(risk)| == |log.deleted + log.changed|;
    }
    forall i | 0 <= i < |risk|
      ensures '\n' !in risk[i]
    {
      assert risk[i] in multiset(risk);
    }
    SplitJoin(risk, '\n');
  }

  /** Every change log a dry run yields meets the condition above: its names
      come from single report lines, so the file list of the archive copy
      reads back as exactly the names at risk. */
  lemma ClassifiedArchiveList(text: string)
    requires Classify(text).deleted + Classify(text).changed != []
    ensures var log := Classify(text);
            Split(JoinWith(AtRisk(log), '\n'), '\n') == AtRisk(log)
  {
    var log := Classify(text);
    assert forall n :: n in log.deleted + log.changed ==> n in log.deleted || n in log.changed;
    ArchiveListRoundTrip(log);
  }

  // ---------------------------------------------------------------------
  // the order of the steps

  /** The step of a run an effect belongs to: 0 detecting changes, 1 writing
      the log, 2 archiving, 3 the live sync. `os.makedirs` is called for the
      live copy while detecting changes and for the log directory while
      writing the log. */
  function Stage(s: Settings, e: Effect): nat
  {
    match e
    case MadeDirs(p) => if p == CurrentDir(s) then 0 else 1
    case Asked(call, _) => if call.fileList.None? then 0 else 2
    case LogWritten(_, _) => 1
    case MadeDir(_) => 2
    case Ran(_) => 3
  }

  /** The steps of a trace come in stage order. */
  predicate InStageOrder(s: Settings, t: seq<Effect>)
  {
    forall i, j :: 0 <= i < j < |t| ==> Stage(s, t[i]) <= Stage(s, t[j])
  }

  predicate IsArchiveCopy(e: Effect)
  {
    e.Asked? && e.call.fileList.Some?
  }

  /** Appending steps of a stage no earlier than the last one keeps the
      order. */
  lemma {:induction false} StageOrderAppend(s: Settings, t: seq<Effect>, u: seq<Effect>)
    requires InStageOrder(s, t) && InStageOrder(s, u)
    requires forall i, j :: 0 <= i < |t| && 0 <= j < |u| ==> Stage(s, t[i]) <= Stage(s, u[j])
    ensures InStageOrder(s, t + u)
  {
    forall i, j | 0 <= i < j < |t + u|
      ensures Stage(s, (t + u)[i]) <= Stage(s, (t + u)[j])
    {
      if j < |t| {
        assert (t + u)[i] == t[i] && (t + u)[j] == t[j];
      } else if i < |t| {
        assert (t + u)[i] == t[i] && (t + u)[j] == u[j - |t|];
      } else {
        assert (t + u)[i] == u[i - |t|] && (t + u)[j] == u[j - |t|];
      }
    }
  }

  /** Appending to a trace in two pieces. (Stated as a lemma: as an
      assertion inside the methods of a run the solver has too much else in
      view.) */
  lemma AppendAssoc(a: seq<Effect>, b: seq<Effect>, c: seq<Effect>)
    ensures (a + b) + c == a + (b + c)
  {
  }

  /** The live sync is the last stage, so it may follow anything. */
  lemma SyncLast(s: Settings, t: seq<Effect>, call: Call)
    requires InStageOrder(s, t)
    ensures InStageOrder(s, t + [Ran(call)])
  {
    forall i, j | 0 <= i < j < |t + [Ran(call)]|
      ensures Stage(s, (t + [Ran(call)])[i]) <= Stage(s, (t + [Ran(call)])[j])
    {
      if j < |t| {
        assert (t + [Ran(call)])[i] == t[i] && (t + [Ran(call)])[j] == t[j];
      } else {
        assert (t + [Ran(call)])[j] == Ran(call);
        assert Stage(s, (t + [Ran(call)])[i]) <= 3;
      }
    }
  }

  // ---------------------------------------------------------------------
  // the effects of each step, as functions of the state before it

  /** The directories `_move_to_history` creates before the copy, each only
      if it is missing: the history directory, then the snapshot directory of
      the time stamp. A failed `os.mkdir` ends the step, and the snapshot
      directory is not reached while the time stamp is unset. */
  function SnapshotDirsMade(s: Settings, fs: Fs, ts: Option<string>): (made: seq<Effect>)
    ensures forall e :: e in made ==> e.MadeDir?
  {
    var hd := HistoryDir(s);
    if !IsDir(fs, hd) && MkdirError(fs, hd).Some? then []
    else
      var fs1 := if IsDir(fs, hd) then fs else AddDir(fs, hd);
      (if IsDir(fs, hd) then [] else [MadeDir(hd)])
      + match HistoryTimeStampDir(s, ts)
        case Raised(_) => []
        case Ok(snapshot) =>
          if IsDir(fs1, snapshot) || MkdirError(fs1, snapshot).Some? then [] else [MadeDir(snapshot)]
  }

  /** The file system after `SnapshotDirsMade`. */
  function SnapshotDirsFs(s: Settings, fs: Fs, ts: Option<string>): Fs
  {
    var hd := HistoryDir(s);
    if !IsDir(fs, hd) && MkdirError(fs, hd).Some? then fs
    else
      var fs1 := if IsDir(fs, hd) then fs else AddDir(fs, hd);
      match HistoryTimeStampDir(s, ts)
      case Raised(_) => fs1
      case Ok(snapshot) =>
        if IsDir(fs1, snapshot) || MkdirError(fs1, snapshot).Some? then fs1 else AddDir(fs1, snapshot)
  }

  /** The exception raised while those directories are created, if any:
      by `os.mkdir` of the history directory, by the time-stamp property, or
      by `os.mkdir` of the snapshot directory. */
  function SnapshotDirsError(s: Settings, fs: Fs, ts: Option<string>): Option<PyError>
  {
    var hd := HistoryDir(s);
    if !IsDir(fs, hd) && MkdirError(fs, hd).Some? then MkdirError(fs, hd)
    else
      var fs1 := if IsDir(fs, hd) then fs else AddDir(fs, hd);
      match HistoryTimeStampDir(s, ts)
      case Raised(e) => Some(e)
      case Ok(snapshot) => if IsDir(fs1, snapshot) then None else MkdirError(fs1, snapshot)
  }

  /** What `_move_to_history` returns: False when history is not kept, True
      when nothing is at risk, otherwise rsync's output. */
  datatype Archived = NotSaved | NothingToMove | Copied(output: string)

  /** Whether `_move_to_history` gets as far as creating directories. */
  predicate Archives(s: Settings, log: ChangeLog)
  {
    s.saveHistory && log.deleted + log.changed != []
  }

  /** The exception `os.makedirs` raises for a missing log directory. */
  function LogDirError(s: Settings, fs: Fs): Option<PyError>
  {
    if Exists(fs, LogDir(s)) then None else MakedirsError(fs, LogDir(s))
  }

  /** The file system after `_save_file_logs`: the log directory is created
      when it was missing and could be. */
  function LogStepsFs(s: Settings, fs: Fs): Fs
  {
    if Exists(fs, LogDir(s)) || LogDirError(s, fs).Some? then fs else AddDir(fs, LogDir(s))
  }

  /** The exception `_save_file_logs` raises, if any: from `os.makedirs`,
      otherwise from `open` of the log file. */
  function LogError(s: Settings, fs: Fs, ts: Option<string>): Option<PyError>
  {
    if LogDirError(s, fs).Some? then LogDirError(s, fs) else OpenError(LogStepsFs(s, fs), LogFile(s, ts))
  }

  /** The effects of `_save_file_logs`. */
  function LogSteps(s: Settings, fs: Fs, ts: Option<string>, log: ChangeLog): seq<Effect>
  {
    if LogDirError(s, fs).Some? then []
    else
      (if Exists(fs, LogDir(s)) then [] else [MadeDirs(LogDir(s))])
      + (if OpenError(LogStepsFs(s, fs), LogFile(s, ts)).Some? then [] else [LogWritten(LogFile(s, ts), log)])
  }

  /** The effects of `_move_to_history`, `reply` being rsync's answer to the
      archive copy. */
  function ArchiveSteps(s: Settings, fs: Fs, ts: Option<string>, log: ChangeLog, reply: Reply): seq<Effect>
  {
    if !Archives(s, log) then []
    else
      SnapshotDirsMade(s, fs, ts)
      + match HistoryTimeStampDir(s, ts)
        case Raised(_) => []
        case Ok(snapshot) =>
          if SnapshotDirsError(s, fs, ts).Some? then [] else [Asked(ArchiveCall(s, snapshot, log), reply)]
  }

  /** The outcome of `_move_to_history`. */
  function ArchiveResult(s: Settings, fs: Fs, ts: Option<string>, log: ChangeLog, reply: Reply): Outcome<Archived>
  {
    if !s.saveHistory then Ok(NotSaved)
    else if log.deleted + log.changed == [] then Ok(NothingToMove)
    else match SnapshotDirsError(s, fs, ts)
      case Some(e) => Raised(e)
      case None => if reply.Output? then Ok(Copied(reply.text)) else Raised(CalledProcessError)
  }

  /** The effects of `run_backup` once a change log is at hand: the log, then,
      unless writing it raised, the archive copy, then, unless archiving
      raised, the live sync. */
  function SessionSteps(s: Settings, fs: Fs, ts: Option<string>, log: ChangeLog, reply: Reply): seq<Effect>
  {
    var fs1 := LogStepsFs(s, fs);
    if LogError(s, fs, ts).Some? then LogSteps(s, fs, ts, log)
    else
      LogSteps(s, fs, ts, log)
      + ArchiveSteps(s, fs1, ts, log, reply)
      + (if ArchiveResult(s, fs1, ts, log, reply).Ok? then [Ran(SyncCall(s))] else [])
  }

  function SessionResult(s: Settings, fs: Fs, ts: Option<string>, log: ChangeLog, reply: Reply): Outcome<bool>
  {
    if LogError(s, fs, ts).Some? then Raised(LogError(s, fs, ts).value)
    else
      var archived := ArchiveResult(s, LogStepsFs(s, fs), ts, log, reply);
      if archived.Raised? then Raised(archived.error) else Ok(true)
  }

  /** The exception `os.makedirs` raises for a missing live copy. */
  function LiveCopyError(s: Settings, fs: Fs): Option<PyError>
  {
    if Exists(fs, CurrentDir(s)) then None else MakedirsError(fs, CurrentDir(s))
  }

  /** The exception `dry_run` raises before rsync is asked, if any:
      FileNotFoundError for a missing destination, otherwise whatever
      creating the live copy raises. */
  function DryRunError(s: Settings, fs: Fs): Option<PyError>
  {
    if !Exists(fs, s.destination) then Some(FileNotFoundError) else LiveCopyError(s, fs)
  }

  /** The effects of `dry_run`: nothing when it raises before rsync is
      asked; otherwise the live copy is created if needed, then the itemized
      dry run is asked for. */
  function DryRunSteps(s: Settings, fs: Fs, reply: Reply): seq<Effect>
  {
    if DryRunError(s, fs).Some? then []
    else (if Exists(fs, CurrentDir(s)) then [] else [MadeDirs(CurrentDir(s))]) + [Asked(DryRunCall(s), reply)]
  }

  function DryRunFs(s: Settings, fs: Fs): Fs
  {
    if DryRunError(s, fs).Some? || Exists(fs, CurrentDir(s)) then fs else AddDir(fs, CurrentDir(s))
  }

  /** The change log `run_backup` goes on with after a dry run answered by
      `reply`: the classified report when the cleaned report is not empty,
      otherwise the one the object already held. */
  function LogAfterDryRun(reply: Reply, prior: Option<ChangeLog>): Option<ChangeLog>
  {
    if reply.Output? && Clean(reply.text) != "" then Some(Classify(Clean(reply.text))) else prior
  }

  /** The effects of a whole `run_backup`, `replies` being rsync's answers in
      order and `prior` the change log the object held before. */
  function RunSteps(s: Settings, fs: Fs, replies: seq<Reply>, prior: Option<ChangeLog>, now: string): seq<Effect>
  {
    var reply := NextReply(replies);
    var dry := DryRunSteps(s, fs, reply);
    if DryRunError(s, fs).Some? || reply.Failed? then dry
    else match LogAfterDryRun(reply, prior)
      case None => dry
      case Some(log) => dry + SessionSteps(s, DryRunFs(s, fs), Some(now), log, NextReply(RestReplies(replies)))
  }

  function RunResult(s: Settings, fs: Fs, replies: seq<Reply>, prior: Option<ChangeLog>, now: string): Outcome<bool>
  {
    var reply := NextReply(replies);
    if DryRunError(s, fs).Some? then Raised(DryRunError(s, fs).value)
    else if reply.Failed? then Raised(CalledProcessError)
    else match LogAfterDryRun(reply, prior)
      case None => Ok(true)
      case Some(log) => SessionResult(s, DryRunFs(s, fs), Some(now), log, NextReply(RestReplies(replies)))
  }

  // ---------------------------------------------------------------------
  // what the order of the steps guarantees

  /** Writing the log: at most the log directory and one log file, named
      after the time stamp; the file is written exactly when
      `_save_file_logs` does not raise. */
  lemma LogStepsFacts(s: Settings, fs: Fs, ts: Option<string>, log: ChangeLog)
    ensures var t := LogSteps(s, fs, ts, log);
            && InStageOrder(s, t)
            && (LogWritten(LogFile(s, ts), log) in t <==> LogError(s, fs, ts).None?)
            && forall e :: e in t ==> Stage(s, e) <= 1 && !e.Asked? && !e.Ran? && !e.MadeDir?
                                      && (e.MadeDirs? ==> e.path == LogDir(s))
                                      && (e.LogWritten? ==> e == LogWritten(LogFile(s, ts), log))
  {
  }

  /** Archiving: all stage 2; the only rsync call is the archive copy into
      the snapshot directory of the time stamp, and it is the last step; it
      is not asked for once creating a directory raised. */
  lemma ArchiveStepsFacts(s: Settings, fs: Fs, now: string, log: ChangeLog, reply: Reply)
    ensures var t := ArchiveSteps(s, fs, Some(now), log, reply);
            var r := ArchiveResult(s, fs, Some(now), log, reply);
            var copy := Asked(ArchiveCall(s, Join(HistoryDir(s), now), log), reply);
            && InStageOrder(s, t)
            && (forall e :: e in t ==> Stage(s, e) == 2 && !e.Ran? && !e.LogWritten? && (e.Asked? ==> e == copy))
            && (r.Ok? && Archives(s, log) ==> t != [] && t[|t| - 1] == copy && reply.Output?)
            && (Archives(s, log) && SnapshotDirsError(s, fs, Some(now)).Some? ==>
                  r == Raised(SnapshotDirsError(s, fs, Some(now)).value) && forall e :: e in t ==> !e.Asked?)
            && (reply.Failed? && (exists e :: e in t && e.Asked?) ==> r == Raised(CalledProcessError))
  {
    var t := ArchiveSteps(s, fs, Some(now), log, reply);
    var made := SnapshotDirsMade(s, fs, Some(now));
    var copy := Asked(ArchiveCall(s, Join(HistoryDir(s), now), log), reply);
    if Archives(s, log) {
      assert forall e :: e in made ==> Stage(s, e) == 2 && !e.Asked?;
      if now != "" && SnapshotDirsError(s, fs, Some(now)).None? {
        assert t == made + [copy];
      } else {
        assert t == made;
      }
      assert forall e :: e in t ==> Stage(s, e) == 2;
    }
  }

  /** The log, archive and sync steps of a session, each with what it
      contains. */
  lemma SessionParts(s: Settings, fs: Fs, now: string, log: ChangeLog, reply: Reply)
    returns (logged: seq<Effect>, copied: seq<Effect>, sync: seq<Effect>)
    ensures SessionSteps(s, fs, Some(now), log, reply) == logged + copied + sync
    ensures forall e :: e in logged + copied + sync ==> e in logged || e in copied || e in sync
    ensures InStageOrder(s, logged) && InStageOrder(s, copied)
    ensures LogWritten(LogFile(s, Some(now)), log) in logged <==> LogError(s, fs, Some(now)).None?
    ensures forall e :: e in logged ==> Stage(s, e) <= 1 && !e.Asked? && !e.Ran?
                                        && (e.LogWritten? ==> e == LogWritten(LogFile(s, Some(now)), log))
    ensures LogError(s, fs, Some(now)).Some? ==>
              && copied == [] && sync == []
              && SessionResult(s, fs, Some(now), log, reply) == Raised(LogError(s, fs, Some(now)).value)
    ensures forall e :: e in copied ==> Stage(s, e) == 2 && !e.Ran? && !e.LogWritten?
                                        && (e.Asked? ==> e == Asked(ArchiveCall(s, Join(HistoryDir(s), now), log), reply))
    ensures var r := SessionResult(s, fs, Some(now), log, reply);
            && (r.Ok? && Archives(s, log) ==>
                  copied != [] && copied[|copied| - 1] == Asked(ArchiveCall(s, Join(HistoryDir(s), now), log), reply)
                  && reply.Output?)
            && (reply.Failed? && (exists e :: e in copied && e.Asked?) ==> r == Raised(CalledProcessError))
    ensures sync == if SessionResult(s, fs, Some(now), log, reply).Ok? then [Ran(SyncCall(s))] else []
  {
    var ts := Some(now);
    logged := LogSteps(s, fs, ts, log);
    LogStepsFacts(s, fs, ts, log);
    if LogError(s, fs, ts).Some? {
      copied := [];
      sync := [];
      assert logged + copied + sync == logged;
    } else {
      var fs1 := LogStepsFs(s, fs);
      copied := ArchiveSteps(s, fs1, ts, log, reply);
      sync := if ArchiveResult(s, fs1, ts, log, reply).Ok? then [Ran(SyncCall(s))] else [];
      ArchiveStepsFacts(s, fs1, now, log, reply);
    }
  }

  /** The steps of a session come in stage order: log, archive, sync. */
  lemma SessionInStageOrder(s: Settings, fs: Fs, now: string, log: ChangeLog, reply: Reply)
    ensures InStageOrder(s, SessionSteps(s, fs, Some(now), log, reply))
  {
    var logged, copied, sync := SessionParts(s, fs, now, log, reply);
    StageOrderAppend(s, logged, copied);
    if sync != [] {
      SyncLast(s, logged + copied, SyncCall(s));
    } else {
      assert logged + copied + sync == logged + copied;
    }
  }

  /** In a session the one log file and the archive copy both use the time
      stamp `now`, and the only process run is the live sync. */
  lemma SessionStamps(s: Settings, fs: Fs, now: string, log: ChangeLog, reply: Reply)
    ensures var t := SessionSteps(s, fs, Some(now), log, reply);
            && (LogWritten(LogFile(s, Some(now)), log) in t <==> LogError(s, fs, Some(now)).None?)
            && (forall e :: e in t && e.LogWritten? ==> e == LogWritten(LogFile(s, Some(now)), log))
            && (forall e :: e in t && IsArchiveCopy(e) ==> e.call == ArchiveCall(s, Join(HistoryDir(s), now), log))
            && (forall e :: e in t && e.Ran? ==> e == Ran(SyncCall(s)))
  {
    var logged, copied, sync := SessionParts(s, fs, now, log, reply);
  }

  /** The live sync happens exactly when the session ends normally, and then
      after the written log and, whenever files were at risk, a successful
      archive copy; a failed archive copy ends the session with
      CalledProcessError before the sync; a log that could not be written
      ends it before anything is archived. */
  lemma SessionGuards(s: Settings, fs: Fs, now: string, log: ChangeLog, reply: Reply)
    ensures var t := SessionSteps(s, fs, Some(now), log, reply);
            var r := SessionResult(s, fs, Some(now), log, reply);
            && (r.Ok? <==> Ran(SyncCall(s)) in t)
            && (r.Ok? ==> r == Ok(true) && LogWritten(LogFile(s, Some(now)), log) in t)
            && (r.Ok? && Archives(s, log) ==> exists e :: e in t && IsArchiveCopy(e) && e.reply.Output?)
            && ((exists e :: e in t && IsArchiveCopy(e) && e.reply.Failed?) ==>
                  r == Raised(CalledProcessError) && Ran(SyncCall(s)) !in t)
            && (LogError(s, fs, Some(now)).Some? ==>
                  && r == Raised(LogError(s, fs, Some(now)).value)
                  && forall e :: e in t ==> !e.LogWritten? && !IsArchiveCopy(e) && !e.Ran?)
  {
    var logged, copied, sync := SessionParts(s, fs, now, log, reply);
    if SessionResult(s, fs, Some(now), log, reply).Ok? && Archives(s, log) {
      assert copied[|copied| - 1] in logged + copied + sync;
    }
  }

  /** The dry run's steps are all of stage 0 and neither log, archive nor
      sync. */
  lemma DryRunStepsFacts(s: Settings, fs: Fs, reply: Reply)
    ensures InStageOrder(s, DryRunSteps(s, fs, reply))
    ensures forall e :: e in DryRunSteps(s, fs, reply) ==>
              Stage(s, e) == 0 && !e.Ran? && !e.LogWritten? && !IsArchiveCopy(e)
  {
  }

  /** A run's steps: the dry run's, then those of a session exactly when the
      dry run asked rsync, rsync answered and the object holds a change
      log. */
  lemma RunParts(s: Settings, fs: Fs, replies: seq<Reply>, prior: Option<ChangeLog>, now: string)
    returns (dry: seq<Effect>, rest: seq<Effect>)
    ensures RunSteps(s, fs, replies, prior, now) == dry + rest
    ensures dry == DryRunSteps(s, fs, NextReply(replies))
    ensures forall e :: e in dry + rest ==> e in dry || e in rest
    ensures var log := LogAfterDryRun(NextReply(replies), prior);
            if DryRunError(s, fs).None? && NextReply(replies).Output? && log.Some?
            then rest == SessionSteps(s, DryRunFs(s, fs), Some(now), log.value, NextReply(RestReplies(replies)))
                 && RunResult(s, fs, replies, prior, now)
                    == SessionResult(s, DryRunFs(s, fs), Some(now), log.value, NextReply(RestReplies(replies)))
            else rest == []
  {
    dry := DryRunSteps(s, fs, NextReply(replies));
    var log := LogAfterDryRun(NextReply(replies), prior);
    if DryRunError(s, fs).None? && NextReply(replies).Output? && log.Some? {
      rest := SessionSteps(s, DryRunFs(s, fs), Some(now), log.value, NextReply(RestReplies(replies)));
    } else {
      rest := [];
      assert dry + rest == dry;
    }
  }

  /** The steps of a whole run come in stage order. */
  lemma RunInStageOrder(s: Settings, fs: Fs, replies: seq<Reply>, prior: Option<ChangeLog>, now: string)
    ensures InStageOrder(s, RunSteps(s, fs, replies, prior, now))
  {
    var dry, rest := RunParts(s, fs, replies, prior, now);
    DryRunStepsFacts(s, fs, NextReply(replies));
    var log := LogAfterDryRun(NextReply(replies), prior);
    if rest != [] {
      SessionInStageOrder(s, DryRunFs(s, fs), now, log.value, NextReply(RestReplies(replies)));
      StageOrderAppend(s, dry, rest);
    }
  }

  /** A run does nothing when the destination is missing or the live copy
      cannot be created, and a fresh object whose cleaned report is empty
      stops after the dry run. */
  lemma RunStopsEarly(s: Settings, fs: Fs, replies: seq<Reply>, prior: Option<ChangeLog>, now: string)
    ensures var t := RunSteps(s, fs, replies, prior, now);
            var r := RunResult(s, fs, replies, prior, now);
            var reply := NextReply(replies);
            && (!Exists(fs, s.destination) ==> r == Raised(FileNotFoundError) && t == [])
            && (Exists(fs, s.destination) && LiveCopyError(s, fs).Some? ==> r == Raised(OSError) && t == [])
            && (prior.None? && DryRunError(s, fs).None? && reply.Output? && Clean(reply.text) == "" ==>
                  r == Ok(true) && forall e :: e in t ==> Stage(s, e) == 0)
  {
    var dry, rest := RunParts(s, fs, replies, prior, now);
    DryRunStepsFacts(s, fs, NextReply(replies));
  }

  /** The log and the archive copy of a run use its time stamp and the change
      log it went on with. */
  lemma RunStamps(s: Settings, fs: Fs, replies: seq<Reply>, prior: Option<ChangeLog>, now: string)
    ensures var t := RunSteps(s, fs, replies, prior, now);
            var log := LogAfterDryRun(NextReply(replies), prior);
            && (forall e :: e in t && e.LogWritten? ==> e.path == LogFile(s, Some(now)) && Some(e.log) == log)
            && (forall e :: e in t && IsArchiveCopy(e) ==>
                  log.Some? && e.call == ArchiveCall(s, Join(HistoryDir(s), now), log.value))
  {
    var dry, rest := RunParts(s, fs, replies, prior, now);
    DryRunStepsFacts(s, fs, NextReply(replies));
    var log := LogAfterDryRun(NextReply(replies), prior);
    if rest != [] {
      SessionStamps(s, DryRunFs(s, fs), now, log.value, NextReply(RestReplies(replies)));
    }
  }

  /** The live sync of a run follows a written log and, when files were at
      risk, a successful archive copy; a run that wrote no log neither
      archived nor synced; a failed archive copy ends the run before the
      sync; a run that ends normally with a change log has synced. */
  lemma RunGuards(s: Settings, fs: Fs, replies: seq<Reply>, prior: Option<ChangeLog>, now: string)
    ensures var t := RunSteps(s, fs, replies, prior, now);
            var r := RunResult(s, fs, replies, prior, now);
            var log := LogAfterDryRun(NextReply(replies), prior);
            && (Ran(SyncCall(s)) in t ==>
                  && r == Ok(true)
                  && (exists e :: e in t && e.LogWritten?)
                  && (log.Some? && Archives(s, log.value) ==> exists e :: e in t && IsArchiveCopy(e) && e.reply.Output?))
            && ((forall e :: e in t ==> !e.LogWritten?) ==> forall e :: e in t ==> !IsArchiveCopy(e) && !e.Ran?)
            && ((exists e :: e in t && IsArchiveCopy(e) && e.reply.Failed?) ==>
                  r == Raised(CalledProcessError) && Ran(SyncCall(s)) !in t)
            && (r.Ok? && log.Some? ==> Ran(SyncCall(s)) in t)
  {
    var dry, rest := RunParts(s, fs, replies, prior, now);
    DryRunStepsFacts(s, fs, NextReply(replies));
    var log := LogAfterDryRun(NextReply(replies), prior);
    if rest != [] {
      SessionStamps(s, DryRunFs(s, fs), now, log.value, NextReply(RestReplies(replies)));
      SessionGuards(s, DryRunFs(s, fs), now, log.value, NextReply(RestReplies(replies)));
    }
  }

  // ---------------------------------------------------------------------
  // the backup object

  class RsyncBackup {
    const settings: Settings
    const host: Host
    var timeStamp: Option<string>
    var dryrun: Option<string>
    var changeLog: Option<ChangeLog>

    /** An empty `name` or `excludeFile` stands for the argument left out;
        `cwd` is the working directory `abspath` resolves against. The name
        left out is taken from the source argument as given. */
    constructor (source: string, destination: string, name: string, excludeFile: string,
                 saveHistory: bool, localHistory: bool,
                 syncOptions: seq<string>, histOptions: seq<string>,
                 cwd: string, host: Host)
      requires IsAbs(cwd)
      ensures this.host == host
      ensures settings.source == AbsPath(cwd, source) + "/"
      ensures settings.destination == AbsPath(cwd, destination)
      ensures settings.name == DefaultNameAsWritten(source, name)
      ensures settings.saveHistory == saveHistory && settings.localHistory == localHistory
      ensures settings.excludeOption == ExcludeOptions(localHistory, excludeFile, host.fs, settings.source)
      ensures settings.syncOptions == syncOptions + settings.excludeOption
      ensures settings.histOptions == histOptions
      ensures timeStamp == None && dryrun == None && changeLog == None
    {
      var src := AbsPath(cwd, source) + "/";
      var exclude := if localHistory then [IncludeHistory, IncludeLog, ExcludeRhbContents] else [ExcludeRhb];
      if excludeFile != "" && IsFile(host.fs, excludeFile) {
        exclude := exclude + ["--exclude-from=" + excludeFile];
      } else if IsFile(host.fs, Join(src, IgnoreFileName)) {
        exclude := exclude + ["--exclude-from=" + Join(src, IgnoreFileName)];
      }
      settings := Settings(src, AbsPath(cwd, destination), DefaultNameAsWritten(source, name),
                           saveHistory, localHistory, exclude, syncOptions + exclude, histOptions);
      this.host := host;
      timeStamp := None;
      dryrun := None;
      changeLog := None;
    }

    /** `_get_changes`: make sure the live copy exists, fix the time stamp,
        ask rsync for the itemized dry run, clean it and classify it. An
        empty cleaned report returns False (`None` here) and keeps the change
        log the object already had. `steps` are the effects of the call. */
    method GetChanges(now: string) returns (r: Outcome<Option<ChangeLog>>, ghost steps: seq<Effect>)
      modifies this, host
      ensures host.trace == old(host.trace) + steps
      ensures LiveCopyError(settings, old(host.fs)).Some? ==>
                && r == Raised(LiveCopyError(settings, old(host.fs)).value) && steps == []
                && host.fs == old(host.fs) && host.replies == old(host.replies) && host.logs == old(host.logs)
                && timeStamp == old(timeStamp) && dryrun == old(dryrun) && changeLog == old(changeLog)
      ensures LiveCopyError(settings, old(host.fs)).None? ==>
                var made := if Exists(old(host.fs), CurrentDir(settings)) then [] else [MadeDirs(CurrentDir(settings))];
                var reply := NextReply(old(host.replies));
                && steps == made + [Asked(DryRunCall(settings), reply)]
                && host.fs == (if made == [] then old(host.fs) else AddDir(old(host.fs), CurrentDir(settings)))
                && host.replies == RestReplies(old(host.replies))
                && host.logs == old(host.logs)
                && timeStamp == Some(now)
                && changeLog == (if reply.Output? then LogAfterDryRun(reply, old(changeLog)) else old(changeLog))
                && (reply.Failed? ==> r == Raised(CalledProcessError) && dryrun == old(dryrun))
                && (reply.Output? ==>
                      var text := Clean(reply.text);
                      && dryrun == Some(text)
                      && r == (if text == "" then Ok(None) else Ok(Some(Classify(text)))))
    {
      steps := [];
      if !Exists(host.fs, CurrentDir(settings)) {
        var err := host.MakeDirs(CurrentDir(settings));
        if err.Some? {
          return Raised(err.value), [];
        }
        steps := [MadeDirs(CurrentDir(settings))];
      }
      timeStamp := Some(now);
      ghost var reply := NextReply(host.replies);
      var out := host.CheckOutput(DryRunCall(settings));
      steps := steps + [Asked(DryRunCall(settings), reply)];
      if out.Raised? {
        return Raised(out.error), steps;
      }
      var text := Clean(out.value);
      dryrun := Some(text);
      if text == "" {
        return Ok(None), steps;
      }
      changeLog := Some(Classify(text));
      r := Ok(changeLog);
    }

    /** `dry_run`: FileNotFoundError, with nothing done, when the destination
        is missing; otherwise the live copy is created if needed and the
        changes are looked for. */
    method DryRun(now: string) returns (r: Outcome<Option<ChangeLog>>, ghost steps: seq<Effect>)
      modifies this, host
      ensures host.trace == old(host.trace) + steps
      ensures steps == DryRunSteps(settings, old(host.fs), NextReply(old(host.replies)))
      ensures host.fs == DryRunFs(settings, old(host.fs)) && host.logs == old(host.logs)
      ensures DryRunError(settings, old(host.fs)).Some? ==>
                && r == Raised(DryRunError(settings, old(host.fs)).value) && host.replies == old(host.replies)
                && timeStamp == old(timeStamp) && dryrun == old(dryrun) && changeLog == old(changeLog)
      ensures DryRunError(settings, old(host.fs)).None? ==>
                var reply := NextReply(old(host.replies));
                && host.replies == RestReplies(old(host.replies))
                && timeStamp == Some(now)
                && changeLog == (if reply.Output? then LogAfterDryRun(reply, old(changeLog)) else old(changeLog))
                && (reply.Failed? ==> r == Raised(CalledProcessError) && dryrun == old(dryrun))
                && (reply.Output? ==>
                      var text := Clean(reply.text);
                      && dryrun == Some(text)
                      && r == (if text == "" then Ok(None) else Ok(Some(Classify(text)))))
    {
      if !Exists(host.fs, settings.destination) {
        return Raised(FileNotFoundError), [];
      }
      var made := [];
      if !Exists(host.fs, CurrentDir(settings)) {
        var err := host.MakeDirs(CurrentDir(settings));
        if err.Some? {
          return Raised(err.value), [];
        }
        made := [MadeDirs(CurrentDir(settings))];
      }
      ghost var more;
      r, more := GetChanges(now);
      steps := made + more;
    }

    /** `_save_file_logs`: create the log directory if needed and write the
        change log to `<time stamp>.json` in it. An exception from either
        ends the call. */
    method SaveFileLogs(log: ChangeLog) returns (r: Outcome<bool>, ghost steps: seq<Effect>)
      modifies host
      ensures r == (if LogError(settings, old(host.fs), timeStamp).Some?
                    then Raised(LogError(settings, old(host.fs), timeStamp).value) else Ok(true))
      ensures host.trace == old(host.trace) + steps
      ensures steps == LogSteps(settings, old(host.fs), timeStamp, log)
      ensures host.fs == LogStepsFs(settings, old(host.fs))
      ensures host.logs == (if r.Ok? then old(host.logs)[LogFile(settings, timeStamp) := log] else old(host.logs))
      ensures host.replies == old(host.replies)
    {
      steps := [];
      if !Exists(host.fs, LogDir(settings)) {
        var made := host.MakeDirs(LogDir(settings));
        if made.Some? {
          return Raised(made.value), [];
        }
        steps := [MadeDirs(LogDir(settings))];
      }
      var written := host.WriteLog(LogFile(settings, timeStamp), log);
      if written.Some? {
        return Raised(written.value), steps;
      }
      steps := steps + [LogWritten(LogFile(settings, timeStamp), log)];
      r := Ok(true);
    }

    /** The directories `_move_to_history` creates before the copy: the
        history directory and the snapshot directory, each if missing. */
    method MakeSnapshotDirs() returns (err: Option<PyError>, ghost steps: seq<Effect>)
      modifies host
      ensures err == SnapshotDirsError(settings, old(host.fs), timeStamp)
      ensures host.trace == old(host.trace) + steps
      ensures steps == SnapshotDirsMade(settings, old(host.fs), timeStamp)
      ensures host.fs == SnapshotDirsFs(settings, old(host.fs), timeStamp)
      ensures host.logs == old(host.logs) && host.replies == old(host.replies)
    {
      ghost var fs0 := host.fs;
      steps := [];
      if !IsDir(host.fs, HistoryDir(settings)) {
        err := host.MakeDir(HistoryDir(settings));
        if err.Some? {
          return err, [];
        }
        steps := [MadeDir(HistoryDir(settings))];
      }
      ghost var fs1 := host.fs;
      assert fs1 == if IsDir(fs0, HistoryDir(settings)) then fs0 else AddDir(fs0, HistoryDir(settings));
      var snapshot := HistoryTimeStampDir(settings, timeStamp);
      if snapshot.Raised? {
        return Some(snapshot.error), steps;
      }
      err := None;
      if !IsDir(host.fs, snapshot.value) {
        ghost var t0 := old(host.trace);
        err := host.MakeDir(snapshot.value);
        if err.Some? {
          return err, steps;
        }
        assert (t0 + steps) + [MadeDir(snapshot.value)] == t0 + (steps + [MadeDir(snapshot.value)]);
        steps := steps + [MadeDir(snapshot.value)];
      }
    }

    /** `_move_to_history`: unless history is off or nothing was deleted or
        changed, create the history and snapshot directories as needed and
        have rsync copy the files at risk from the live copy into the
        snapshot. */
    method MoveToHistory(log: ChangeLog) returns (r: Outcome<Archived>, ghost steps: seq<Effect>)
      modifies host
      ensures host.trace == old(host.trace) + steps
      ensures var reply := NextReply(old(host.replies));
              && steps == ArchiveSteps(settings, old(host.fs), timeStamp, log, reply)
              && r == ArchiveResult(settings, old(host.fs), timeStamp, log, reply)
      ensures host.fs == (if Archives(settings, log) then SnapshotDirsFs(settings, old(host.fs), timeStamp) else old(host.fs))
      ensures host.replies == (if Archives(settings, log) && SnapshotDirsError(settings, old(host.fs), timeStamp).None?
                               then RestReplies(old(host.replies)) else old(host.replies))
      ensures host.logs == old(host.logs)
    {
      if !settings.saveHistory {
        return Ok(NotSaved), [];
      }
      if !(|log.deleted + log.changed| > 0) {
        return Ok(NothingToMove), [];
      }
      var err;
      err, steps := MakeSnapshotDirs();
      if err.Some? {
        return Raised(err.value), steps;
      }
      var snapshot := HistoryTimeStampDir(settings, timeStamp).value;
      ghost var copy := Asked(ArchiveCall(settings, snapshot, log), NextReply(host.replies));
      ghost var t0 := old(host.trace);
      var out := host.CheckOutput(ArchiveCall(settings, snapshot, log));
      assert (t0 + steps) + [copy] == t0 + (steps + [copy]);
      steps := steps + [copy];
      if out.Raised? {
        return Raised(out.error), steps;
      }
      r := Ok(Copied(out.value));
    }

    /** `_new_backup`: the live sync, run with `os.system`. */
    method NewBackup() returns (ok: bool)
      modifies host
      ensures ok
      ensures host.trace == old(host.trace) + [Ran(SyncCall(settings))]
      ensures host.fs == old(host.fs) && host.logs == old(host.logs) && host.replies == old(host.replies)
    {
      host.System(SyncCall(settings));
      ok := true;
    }

    /** The part of `run_backup` after a dry run that left a change log:
        write the log, archive the files at risk, and sync, stopping at the
        first exception. */
    method SaveArchiveSync(log: ChangeLog) returns (r: Outcome<bool>, ghost steps: seq<Effect>)
      modifies host
      ensures host.trace == old(host.trace) + steps
      ensures steps == SessionSteps(settings, old(host.fs), timeStamp, log, NextReply(old(host.replies)))
      ensures r == SessionResult(settings, old(host.fs), timeStamp, log, NextReply(old(host.replies)))
    {
      ghost var t0 := host.trace;
      var saved, logged := SaveFileLogs(log);
      if saved.Raised? {
        return Raised(saved.error), logged;
      }
      var archived, copied := MoveToHistory(log);
      AppendAssoc(t0, logged, copied);
      steps := logged + copied;
      if archived.Raised? {
        return Raised(archived.error), steps;
      }
      var synced := NewBackup();
      AppendAssoc(t0, steps, [Ran(SyncCall(settings))]);
      steps := steps + [Ran(SyncCall(settings))];
      r := Ok(true);
    }

    /** `run_backup`: dry run; stop when the object holds no change log;
        otherwise write the log, archive the files at risk, and sync. An
        exception from any step ends the run there. The effects and the
        outcome are those of `RunSteps` and `RunResult`; `RunInStageOrder`,
        `RunStopsEarly`, `RunStamps` and `RunGuards` state what they
        guarantee. */
    method RunBackup(now: string) returns (r: Outcome<bool>, ghost steps: seq<Effect>)
      modifies this, host
      ensures host.trace == old(host.trace) + steps
      ensures steps == RunSteps(settings, old(host.fs), old(host.replies), old(changeLog), now)
      ensures r == RunResult(settings, old(host.fs), old(host.replies), old(changeLog), now)
      ensures var reply := NextReply(old(host.replies));
              var asked := DryRunError(settings, old(host.fs)).None?;
              && timeStamp == (if asked then Some(now) else old(timeStamp))
              && dryrun == (if asked && reply.Output? then Some(Clean(reply.text)) else old(dryrun))
              && changeLog == (if asked && reply.Output? then LogAfterDryRun(reply, old(changeLog)) else old(changeLog))
    {
      ghost var t0, fs0, replies0, prior := host.trace, host.fs, host.replies, changeLog;
      ghost var dry, rest := RunParts(settings, fs0, replies0, prior, now);
      var detected;
      detected, steps := DryRun(now);
      if detected.Raised? {
        return Raised(detected.error), steps;
      }
      if changeLog.None? {
        assert rest == [];
        return Ok(true), steps;
      }
      assert DryRunError(settings, fs0).None? && NextReply(replies0).Output?;
      assert rest == SessionSteps(settings, host.fs, timeStamp, changeLog.value, NextReply(host.replies));
      ghost var more;
      r, more := SaveArchiveSync(changeLog.value);
      AppendAssoc(t0, steps, more);
      steps := steps + more;
    }
  }
}
