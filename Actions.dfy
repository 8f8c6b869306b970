/** The command-line glue around the backup object and the read side: which
    configuration a command runs with, the summary `rhb backup --dryrun`
    prints, and the version list `rhb versions` prints for a file or for
    the files of a directory. What gets printed is modelled as data; the
    formatting and colouring of the lines are not. */
module Actions {
  import opened Wrappers
  import opened PyText
  import opened PosixPath
  import opened FileSystem
  import opened ChangeReport
  import Backup
  import Analyzer
  import LocalDir

  /** Python truthiness of the local settings directory found (or not). */
  predicate Found(localDir: Option<string>)
  {
    localDir.Some? && localDir.value != ""
  }

  // ---------------------------------------------------------------------
  // _init_rhb

  /** Where the backup object of a command comes from. */
  datatype Origin =
    | FromPaths(src: string, dst: string)     // RsyncBackup(src, dst)
    | FromLocalConfig(config: string)         // load_config_file(open(config))

  /** `_init_rhb(src, dst, cfg, local_dir)`: an empty string stands for an
      option that was not given. A configuration file given on the command
      line wins, but that branch opens the undefined name `config` and so
      raises NameError; then source and destination given together; then
      the local settings directory; otherwise the program exits with
      status 1. */
  function InitRhb(src: string, dst: string, cfg: string, localDir: Option<string>): (r: Outcome<Origin>)
    ensures r == Raised(NameError) <==> cfg != ""
    ensures r.Ok? && r.value.FromPaths? <==> cfg == "" && src != "" && dst != ""
    ensures r.Ok? && r.value.FromLocalConfig? <==> cfg == "" && (src == "" || dst == "") && Found(localDir)
    ensures r == Raised(SystemExit(1)) <==> cfg == "" && (src == "" || dst == "") && !Found(localDir)
    ensures r.Ok? && r.value.FromPaths? ==> r.value == FromPaths(src, dst)
    ensures r.Ok? && r.value.FromLocalConfig? ==> r.value.config == LocalDir.ConfigFile(localDir.value)
  {
    if cfg != "" then Raised(NameError)
    else if src != "" && dst != "" then Ok(FromPaths(src, dst))
    else if Found(localDir) then Ok(FromLocalConfig(LocalDir.ConfigFile(localDir.value)))
    else Raised(SystemExit(1))
  }

  /** Settings given on the command line take precedence: once a
      configuration file, or both a source and a destination, are given,
      the local settings directory makes no difference. */
  lemma GivenSettingsWin(src: string, dst: string, cfg: string, l1: Option<string>, l2: Option<string>)
    requires cfg != "" || (src != "" && dst != "")
    ensures InitRhb(src, dst, cfg, l1) == InitRhb(src, dst, cfg, l2)
  {
  }

  /** With nothing given on the command line, the local settings directory
      the upward search finds is used, and its configuration file exists. */
  lemma FoundLocalDirIsUsed(fs: Fs, cwd: string, src: string, dst: string)
    requires IsNormAbs(cwd)
    requires src == "" || dst == ""
    requires LocalDir.Nearest(fs, Components(cwd)).Some?
    ensures var d := LocalDir.Nearest(fs, Components(cwd));
            var r := InitRhb(src, dst, "", d);
            r.Ok? && r.value.FromLocalConfig? && IsFile(fs, r.value.config)
  {
    var cs := Components(cwd);
    LocalDir.NearestIsClosest(fs, cs);
    var k :| 0 <= k <= |cs| && LocalDir.Nearest(fs, cs).value == LocalDir.Ancestor(cs, k)
             && LocalDir.HasConfig(fs, LocalDir.Ancestor(cs, k))
             && forall j :: k < j <= |cs| ==> !LocalDir.HasConfig(fs, LocalDir.Ancestor(cs, j));
    assert LocalDir.Ancestor(cs, k)[0] == '/';
  }

  // ---------------------------------------------------------------------
  // dryrun_action

  /** One category of the dry-run summary: its title, how many names it
      holds, and the names listed under it (none when there are more than
      `ListLimit`). */
  datatype Section = Section(title: string, count: nat, names: seq<string>)

  /** Categories with more names than this are summarised by their count
      only. */
  const ListLimit: nat := 100

  /** The categories of a change log in the order the log's keys were
      inserted, with their upper-cased titles. */
  function Categories(log: ChangeLog): seq<(string, seq<string>)>
  {
    [("CREATED", log.created), ("DELETED", log.deleted), ("CHANGED", log.changed)]
  }

  /** A name as listed: every occurrence of the source path followed by a
      separator is deleted. */
  function ListedName(f: string, source: string): string
  {
    Remove(f, source + "/")
  }

  function ListedNames(names: seq<string>, source: string): (r: seq<string>)
    ensures |r| == |names|
    ensures forall i :: 0 <= i < |names| ==> r[i] == ListedName(names[i], source)
  {
    if names == [] then []
    else ListedNames(names[..|names| - 1], source) + [ListedName(names[|names| - 1], source)]
  }

  /** The section printed for one category: none when it is empty. */
  function SectionFor(title: string, names: seq<string>, source: string): seq<Section>
  {
    if names == [] then []
    else [Section(title, |names|, if |names| > ListLimit then [] else ListedNames(names, source))]
  }

  /** The sections printed for the given categories, in order. */
  function Summary(cats: seq<(string, seq<string>)>, source: string): seq<Section>
  {
    if cats == [] then []
    else
      var (title, names) := cats[|cats| - 1];
      Summary(cats[..|cats| - 1], source) + SectionFor(title, names, source)
  }

  /** The names of one category, as the inner loop lists them. */
  method ListNames(names: seq<string>, source: string) returns (listed: seq<string>)
    ensures listed == ListedNames(names, source)
  {
    listed := [];
    var j := 0;
    while j < |names|
      invariant 0 <= j <= |names|
      invariant listed == ListedNames(names[..j], source)
    {
      assert names[..j + 1][..j] == names[..j];
      listed := listed + [Remove(names[j], source + "/")];
      j := j + 1;
    }
    assert names[..j] == names;
  }

  /** The loop over the categories of the change log: skip an empty one,
      give the count of every other one, and list its names unless there are
      more than `ListLimit`. */
  method SummarizeChanges(log: ChangeLog, source: string) returns (sections: seq<Section>)
    ensures sections == Summary(Categories(log), source)
  {
    var cats := Categories(log);
    sections := [];
    var i := 0;
    while i < |cats|
      invariant 0 <= i <= |cats|
      invariant sections == Summary(cats[..i], source)
    {
      SummaryStep(cats, i, source);
      var (title, names) := cats[i];
      if names == [] {
        i := i + 1;
        continue;
      }
      if |names| > ListLimit {
        sections := sections + [Section(title, |names|, [])];
        i := i + 1;
        continue;
      }
      var listed := ListNames(names, source);
      sections := sections + [Section(title, |names|, listed)];
      i := i + 1;
    }
    assert cats[..i] == cats;
  }

  lemma SummaryStep(cats: seq<(string, seq<string>)>, i: nat, source: string)
    requires i < |cats|
    ensures Summary(cats[..i + 1], source) == Summary(cats[..i], source) + SectionFor(cats[i].0, cats[i].1, source)
  {
    assert cats[..i + 1][..i] == cats[..i];
  }

  lemma SummaryOfLog(log: ChangeLog, source: string)
    ensures Summary(Categories(log), source) ==
              SectionFor("CREATED", log.created, source) + SectionFor("DELETED", log.deleted, source)
              + SectionFor("CHANGED", log.changed, source)
  {
    var cats := Categories(log);
    var c1, c2 := cats[..1], cats[..2];
    assert c1[..0] == [] && c1[0] == ("CREATED", log.created);
    assert Summary(c1, source) == SectionFor("CREATED", log.created, source);
    assert c2[..1] == c1 && c2[1] == ("DELETED", log.deleted);
    assert Summary(c2, source) == Summary(c1, source) + SectionFor("DELETED", log.deleted, source);
    assert cats[..2] == c2 && cats[2] == ("CHANGED", log.changed);
  }

  /** A category's section, when it has one, carries its title, its size
      and its names unless there are more than `ListLimit`. */
  lemma SectionForFacts(title: string, names: seq<string>, source: string)
    ensures |SectionFor(title, names, source)| == if names == [] then 0 else 1
    ensures forall s :: s in SectionFor(title, names, source) ==>
              && s.title == title && s.count == |names| > 0
              && s.names == (if |names| > ListLimit then [] else ListedNames(names, source))
              && (s.names == [] <==> s.count > ListLimit)
  {
  }

  /** The summary of a change log: one section for each non-empty key, in
      the order created, deleted, changed; each gives the key's size and
      lists the key's names, in report order, exactly when there are at
      most `ListLimit` of them. */
  lemma ChangeLogSummary(log: ChangeLog, source: string)
    ensures var sum := Summary(Categories(log), source);
            && |sum| == (if log.created == [] then 0 else 1) + (if log.deleted == [] then 0 else 1)
                        + (if log.changed == [] then 0 else 1)
            && (log.created != [] ==>
                  sum[0] == Section("CREATED", |log.created|,
                                    if |log.created| > ListLimit then [] else ListedNames(log.created, source)))
            && (log.deleted != [] ==>
                  Section("DELETED", |log.deleted|,
                          if |log.deleted| > ListLimit then [] else ListedNames(log.deleted, source)) in sum)
            && (log.changed != [] ==>
                  sum[|sum| - 1] == Section("CHANGED", |log.changed|,
                                            if |log.changed| > ListLimit then [] else ListedNames(log.changed, source)))
            && forall s :: s in sum ==> 0 < s.count && (s.names == [] <==> s.count > ListLimit)
  {
    SummaryOfLog(log, source);
    var a := SectionFor("CREATED", log.created, source);
    var b := SectionFor("DELETED", log.deleted, source);
    var c := SectionFor("CHANGED", log.changed, source);
    SectionForFacts("CREATED", log.created, source);
    SectionForFacts("DELETED", log.deleted, source);
    SectionForFacts("CHANGED", log.changed, source);
    assert forall s :: s in a + b + c ==> s in a || s in b || s in c;
  }

  /** A key with no names has no section: every section of the summary
      belongs to a non-empty key. */
  lemma EmptyKeysSkipped(log: ChangeLog, source: string)
    ensures forall s :: s in Summary(Categories(log), source) ==>
              (s.title == "CREATED" && s.count == |log.created| && log.created != [])
              || (s.title == "DELETED" && s.count == |log.deleted| && log.deleted != [])
              || (s.title == "CHANGED" && s.count == |log.changed| && log.changed != [])
  {
    SummaryOfLog(log, source);
    var a := SectionFor("CREATED", log.created, source);
    var b := SectionFor("DELETED", log.deleted, source);
    var c := SectionFor("CHANGED", log.changed, source);
    SectionForFacts("CREATED", log.created, source);
    SectionForFacts("DELETED", log.deleted, source);
    SectionForFacts("CHANGED", log.changed, source);
    assert forall s :: s in a + b + c ==> s in a || s in b || s in c;
  }

  /** rsync reports names relative to the source, and the source always ends
      with a separator, so the pattern deleted from listed names ends with
      two separators: a name without a doubled separator is listed as it
      is. */
  lemma ListedNameUnchanged(f: string, source: string)
    requires forall i :: 0 <= i < |f| - 1 ==> !(f[i] == '/' && f[i + 1] == '/')
    requires source != [] && source[|source| - 1] == '/'
    ensures ListedName(f, source) == f
  {
    var pat := source + "/";
    assert pat[|pat| - 2] == '/' && pat[|pat| - 1] == '/';
    forall i | 0 <= i <= |f|
      ensures !(pat <= f[i..])
    {
      if i + |pat| <= |f| {
        var k := i + |pat| - 2;
        assert !(f[k] == '/' && f[k + 1] == '/');
        assert f[i..][|pat| - 2] == f[k] && f[i..][|pat| - 1] == f[k + 1];
      }
    }
    RemoveAbsent(f, pat);
  }

  /** The outcome of `dryrun_action` once the backup object exists: exit
      with status 1 when the destination is missing, the OSError of
      `os.makedirs` when the live copy cannot be created (only
      FileNotFoundError is caught), CalledProcessError when rsync fails, nothing printed (and True returned) when the cleaned
      report is empty, otherwise the summary of the report of this very
      dry run. */
  function DryrunOutcome(s: Backup.Settings, fs: Fs, replies: seq<Backup.Reply>): (r: Outcome<seq<Section>>)
    ensures r == Raised(SystemExit(1)) <==> !Exists(fs, s.destination)
    ensures r == Raised(OSError) <==> Exists(fs, s.destination) && Backup.LiveCopyError(s, fs).Some?
    ensures r == Raised(CalledProcessError) <==> Backup.DryRunError(s, fs).None? && Backup.NextReply(replies).Failed?
    ensures r.Ok? && r.value != [] ==>
              var reply := Backup.NextReply(replies);
              reply.Output? && Clean(reply.text) != ""
              && r.value == Summary(Categories(Classify(Clean(reply.text))), s.source)
  {
    var reply := Backup.NextReply(replies);
    if !Exists(fs, s.destination) then Raised(SystemExit(1))
    else if Backup.LiveCopyError(s, fs).Some? then Raised(Backup.LiveCopyError(s, fs).value)
    else if reply.Failed? then Raised(CalledProcessError)
    else if Clean(reply.text) == "" then Ok([])
    else Ok(Summary(Categories(Classify(Clean(reply.text))), s.source))
  }

  /** `dryrun_action` after `_init_rhb`: run the dry run, turn a missing
      destination into `sys.exit(1)`, and summarise the change log it
      returns. */
  method DryrunAction(rhb: Backup.RsyncBackup, now: string) returns (r: Outcome<seq<Section>>, ghost steps: seq<Backup.Effect>)
    modifies rhb, rhb.host
    ensures rhb.host.trace == old(rhb.host.trace) + steps
    ensures steps == Backup.DryRunSteps(rhb.settings, old(rhb.host.fs), Backup.NextReply(old(rhb.host.replies)))
    ensures r == DryrunOutcome(rhb.settings, old(rhb.host.fs), old(rhb.host.replies))
  {
    var out;
    out, steps := rhb.DryRun(now);
    if out.Raised? {
      if out.error == FileNotFoundError {
        return Raised(SystemExit(1)), steps;
      }
      return Raised(out.error), steps;
    }
    if out.value.None? {
      return Ok([]), steps;
    }
    var sections := SummarizeChanges(out.value.value, rhb.settings.source);
    r := Ok(sections);
  }

  // ---------------------------------------------------------------------
  // versions_action

  /** The fields of a parsed configuration file that the command reads. */
  datatype Config = Config(source: string, destination: string, name: string)

  /** The versions printed for one file. */
  datatype Listing = Listing(fileName: string, versions: seq<string>)

  /** What `versions_action` reports: False for a backup without history,
      otherwise True after printing the listings. */
  datatype VersionsShown = NoHistory | Shown(listings: seq<Listing>)

  /** The sentinel listed first when the live copy of the file exists. */
  const CurrentVersion: string := "current"

  /** One leading separator is dropped from a non-empty name. */
  function StripLeadingSlash(s: string): (r: string)
    ensures s == "" || s[0] != '/' ==> r == s
    ensures s != "" && s[0] == '/' ==> s == "/" + r
  {
    if s != "" && s[0] == '/' then s[1..] else s
  }

  /** The queried file name: the absolute path with every occurrence of the
      prefix (the configured source, or the local settings directory)
      deleted, and then one leading separator dropped. */
  function QueriedName(cwd: string, path: string, prefix: string): (r: string)
    requires IsAbs(cwd)
    ensures |r| <= |AbsPath(cwd, path)|
    ensures forall c :: c in r ==> c in AbsPath(cwd, path)
  {
    StripLeadingSlash(Remove(AbsPath(cwd, path), prefix))
  }

  /** For a path inside the prefix directory, where the prefix occurs only
      at the front, the queried name is the path relative to the prefix. */
  lemma RelativeName(prefix: string, rest: string)
    requires prefix != ""
    requires forall i :: 0 <= i <= |"/" + rest| ==> !(prefix <= ("/" + rest)[i..])
    ensures StripLeadingSlash(Remove(prefix + "/" + rest, prefix)) == rest
  {
    assert prefix + "/" + rest == prefix + ("/" + rest);
    RemoveLeading(prefix, "/" + rest);
    RemoveAbsent("/" + rest, prefix);
    assert ("/" + rest)[1..] == rest;
  }

  /** `print_versions`: `"current"` when the live copy is a file, then the
      snapshots holding the file, as `get_file_versions` lists them. */
  function VersionList(fs: Fs, b: Analyzer.BackupInfo, fileName: string): (r: seq<string>)
    ensures IsFile(fs, Join(Analyzer.CurrentDir(b), fileName)) ==> r != [] && r[0] == CurrentVersion
    ensures forall v :: v in r && v != CurrentVersion ==>
              var hist := Analyzer.HistoryDir(b);
              IsDir(fs, hist) && v in Listdir(fs, hist) && Exists(fs, Join(Join(hist, v), fileName))
  {
    VersionsAreSnapshots(fs, b, fileName);
    (if IsFile(fs, Join(Analyzer.CurrentDir(b), fileName)) then [CurrentVersion] else [])
    + Analyzer.Versions(fs, b, fileName, 1)
  }

  /** Every version of a file is a listed snapshot that holds it. */
  lemma VersionsAreSnapshots(fs: Fs, b: Analyzer.BackupInfo, fileName: string)
    ensures forall v :: v in Analyzer.Versions(fs, b, fileName, 1) ==>
              var hist := Analyzer.HistoryDir(b);
              IsDir(fs, hist) && v in Listdir(fs, hist) && Exists(fs, Join(Join(hist, v), fileName))
  {
    var hist := Analyzer.HistoryDir(b);
    if IsDir(fs, hist) {
      forall v | v in Analyzer.Versions(fs, b, fileName, 1)
        ensures v in Listdir(fs, hist) && Exists(fs, Join(Join(hist, v), fileName))
      {
        Analyzer.HitsMembership(fs, hist, Listdir(fs, hist), fileName, 1, v);
      }
    }
  }

  /** The version list starts with the sentinel when the live copy exists
      and is then exactly the snapshots holding the file; everything else in
      it is a snapshot, in listing order, holding the file, each once. */
  lemma VersionListFacts(fs: Fs, b: Analyzer.BackupInfo, fileName: string, dt: string)
    requires Analyzer.Distinct(Listdir(fs, Analyzer.HistoryDir(b)))
    ensures var vers := VersionList(fs, b, fileName);
            var live := IsFile(fs, Join(Analyzer.CurrentDir(b), fileName));
            var hist := Analyzer.HistoryDir(b);
            && (live ==> |vers| > 0 && vers[0] == CurrentVersion && vers[1..] == Analyzer.Versions(fs, b, fileName, 1))
            && (!live ==> vers == Analyzer.Versions(fs, b, fileName, 1))
            && (dt in Analyzer.Versions(fs, b, fileName, 1) <==>
                  IsDir(fs, hist) && dt in Listdir(fs, hist) && Exists(fs, Join(Join(hist, dt), fileName)))
            && Analyzer.IsSubsequence(Analyzer.Versions(fs, b, fileName, 1), Listdir(fs, hist))
            && Analyzer.Distinct(Analyzer.Versions(fs, b, fileName, 1))
  {
    Analyzer.VersionsOfOnePath(fs, b, fileName, dt);
  }

  /** `print_versions(file_name)`, called only once the backup is known to
      keep a history, so its history path is a directory or absent. */
  method PrintVersions(fs: Fs, b: Analyzer.BackupInfo, fileName: string) returns (vers: seq<string>)
    requires IsDir(fs, Analyzer.HistoryDir(b)) || !Exists(fs, Analyzer.HistoryDir(b))
    ensures vers == VersionList(fs, b, fileName)
  {
    vers := [];
    if IsFile(fs, Join(Analyzer.CurrentDir(b), fileName)) {
      vers := vers + [CurrentVersion];
    }
    var found := Analyzer.GetFileVersions(fs, b, fileName);
    vers := vers + found.value;
  }

  /** The listings for the files of directory `path`, in listing order: one
      for each entry that is a file. */
  function DirListings(fs: Fs, b: Analyzer.BackupInfo, path: string, fileName: string, entries: seq<string>): seq<Listing>
  {
    if entries == [] then []
    else
      var fi := entries[|entries| - 1];
      DirListings(fs, b, path, fileName, entries[..|entries| - 1])
        + (if IsFile(fs, Join(path, fi)) then [Listing(Join(fileName, fi), VersionList(fs, b, Join(fileName, fi)))] else [])
  }

  lemma DirListingsStep(fs: Fs, b: Analyzer.BackupInfo, path: string, fileName: string, entries: seq<string>, i: nat)
    requires i < |entries|
    ensures DirListings(fs, b, path, fileName, entries[..i + 1])
              == DirListings(fs, b, path, fileName, entries[..i])
                 + (if IsFile(fs, Join(path, entries[i]))
                    then [Listing(Join(fileName, entries[i]), VersionList(fs, b, Join(fileName, entries[i])))]
                    else [])
  {
    assert entries[..i + 1][..i] == entries[..i];
  }

  /** The listings for `path`: each file of it when it is a directory, else
      the file itself when its live copy exists, else nothing. */
  function Listings(fs: Fs, b: Analyzer.BackupInfo, path: string, fileName: string): seq<Listing>
  {
    if IsDir(fs, path) then DirListings(fs, b, path, fileName, Listdir(fs, path))
    else if IsFile(fs, Join(Analyzer.CurrentDir(b), fileName)) then [Listing(fileName, VersionList(fs, b, fileName))]
    else []
  }

  /** Every file of the directory is listed, under its name joined to the
      queried name, with that file's version list; there are no more
      listings than entries. */
  lemma {:induction false} DirListingsComplete(fs: Fs, b: Analyzer.BackupInfo, path: string, fileName: string,
                                               entries: seq<string>, fi: string)
    ensures |DirListings(fs, b, path, fileName, entries)| <= |entries|
    ensures fi in entries && IsFile(fs, Join(path, fi)) ==>
              Listing(Join(fileName, fi), VersionList(fs, b, Join(fileName, fi))) in DirListings(fs, b, path, fileName, entries)
    decreases |entries|
  {
    if entries != [] {
      var front := entries[..|entries| - 1];
      DirListingsComplete(fs, b, path, fileName, front, fi);
      assert entries == front + [entries[|entries| - 1]];
    }
  }

  /** Every listing of a directory is one of its entries that is a file,
      with that file's version list. */
  lemma {:induction false} DirListingsSound(fs: Fs, b: Analyzer.BackupInfo, path: string, fileName: string,
                                            entries: seq<string>)
    ensures forall l :: l in DirListings(fs, b, path, fileName, entries) ==>
              l.versions == VersionList(fs, b, l.fileName)
              && exists e :: e in entries && IsFile(fs, Join(path, e)) && l.fileName == Join(fileName, e)
    decreases |entries|
  {
    if entries != [] {
      var front := entries[..|entries| - 1];
      DirListingsSound(fs, b, path, fileName, front);
      assert entries == front + [entries[|entries| - 1]];
      forall e | e in front ensures e in entries { }
    }
  }

  /** The outcome of `versions_action(config, local_dir, path)`: `config`
      is the parsed configuration file given on the command line, if any,
      and `localConfig` the parsed one of the local settings directory. */
  function VersionsOutcome(fs: Fs, cwd: string, config: Option<Config>, localDir: Option<string>,
                           localConfig: Config, path: string): (r: Outcome<VersionsShown>)
    requires IsAbs(cwd)
    ensures path == "" ==> r == Raised(SystemExit(1))
    ensures path != "" && config.None? && !Found(localDir) ==> r == Raised(SystemExit(1))
    ensures r.Ok? && r.value.NoHistory? <==>
              path != "" && (config.Some? || Found(localDir))
              && var cfg := if config.Some? then config.value else localConfig;
                 var info := Analyzer.Open(fs, cfg.destination, cfg.name);
                 info.Ok? && !info.value.saveHistory
  {
    if path == "" then Raised(SystemExit(1))
    else if config.None? && !Found(localDir) then Raised(SystemExit(1))
    else
      var cfg := if config.Some? then config.value else localConfig;
      var prefix := if config.Some? then cfg.source else localDir.value;
      match Analyzer.Open(fs, cfg.destination, cfg.name)
      case Raised(e) => Raised(e)
      case Ok(b) =>
        if !b.saveHistory then Ok(NoHistory)
        else Ok(Shown(Listings(fs, b, path, QueriedName(cwd, path, prefix))))
  }

  /** What `versions_action` shows: an empty path or no settings at all
      exit; a backup without history lists nothing; otherwise every listing
      carries its file's version list, and a single file is listed at most
      once. */
  lemma VersionsShownFacts(fs: Fs, cwd: string, config: Option<Config>, localDir: Option<string>,
                           localConfig: Config, path: string)
    requires IsAbs(cwd)
    ensures var r := VersionsOutcome(fs, cwd, config, localDir, localConfig, path);
            && (r.Ok? && r.value.Shown? ==>
                  && (forall l :: l in r.value.listings ==> l.versions == VersionList(fs, Analyzer.BackupInfo(
                        (if config.Some? then config.value else localConfig).destination,
                        (if config.Some? then config.value else localConfig).name, true), l.fileName))
                  && (!IsDir(fs, path) ==> |r.value.listings| <= 1))
  {
    var r := VersionsOutcome(fs, cwd, config, localDir, localConfig, path);
    if r.Ok? && r.value.Shown? {
      var cfg := if config.Some? then config.value else localConfig;
      var b := Analyzer.Open(fs, cfg.destination, cfg.name).value;
      var prefix := if config.Some? then cfg.source else localDir.value;
      var name := QueriedName(cwd, path, prefix);
      if IsDir(fs, path) {
        DirListingsSound(fs, b, path, name, Listdir(fs, path));
      }
    }
  }

  /** `versions_action` itself: an empty path exits before any
      configuration is read; a backup without history returns False; for a
      directory every file in it is listed, otherwise the file itself when
      its live copy exists. */
  method VersionsAction(fs: Fs, cwd: string, config: Option<Config>, localDir: Option<string>,
                        localConfig: Config, path: string) returns (r: Outcome<VersionsShown>)
    requires IsAbs(cwd)
    ensures r == VersionsOutcome(fs, cwd, config, localDir, localConfig, path)
  {
    if path == "" {
      return Raised(SystemExit(1));
    }
    var cfg: Config;
    var prefix: string;
    if config.Some? {
      cfg := config.value;
      prefix := cfg.source;
    } else if Found(localDir) {
      cfg := localConfig;
      prefix := localDir.value;
    } else {
      return Raised(SystemExit(1));
    }
    var info := Analyzer.Open(fs, cfg.destination, cfg.name);
    if info.Raised? {
      return Raised(info.error);
    }
    var b := info.value;
    if !b.saveHistory {
      return Ok(NoHistory);
    }
    var fileName := Remove(AbsPath(cwd, path), prefix);
    if fileName != "" {
      fileName := if fileName[0] == '/' then fileName[1..] else fileName;
    }
    assert fileName == QueriedName(cwd, path, prefix);
    var listings: seq<Listing> := [];
    if IsDir(fs, path) {
      listings := ListDirectory(fs, b, path, fileName);
    } else if IsFile(fs, Join(Analyzer.CurrentDir(b), fileName)) {
      var vers := PrintVersions(fs, b, fileName);
      listings := [Listing(fileName, vers)];
    }
    r := Ok(Shown(listings));
  }

  /** The loop of `versions_action` over a directory: every entry that is a
      file gets its version list, in listing order. */
  method ListDirectory(fs: Fs, b: Analyzer.BackupInfo, path: string, fileName: string)
    returns (listings: seq<Listing>)
    requires IsDir(fs, Analyzer.HistoryDir(b)) || !Exists(fs, Analyzer.HistoryDir(b))
    ensures listings == DirListings(fs, b, path, fileName, Listdir(fs, path))
  {
    var entries := Listdir(fs, path);
    listings := [];
    var i := 0;
    while i < |entries|
      invariant 0 <= i <= |entries|
      invariant listings == DirListings(fs, b, path, fileName, entries[..i])
    {
      DirListingsStep(fs, b, path, fileName, entries, i);
      var fi := entries[i];
      if IsFile(fs, Join(path, fi)) {
        var vers := PrintVersions(fs, b, Join(fileName, fi));
        listings := listings + [Listing(Join(fileName, fi), vers)];
      }
      i := i + 1;
    }
    assert entries[..i] == entries;
  }
}
