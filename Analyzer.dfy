/** The read side: `BackupInfo` opens a backup location laid out as
    `<location>/{log,history,current}/<name>` and answers which history
    snapshots hold a given file, and which path a content request reads. */
module Analyzer {
  import opened Wrappers
  import opened PosixPath
  import opened FileSystem
  import Backup

  /** Files larger than this are not returned by `get_file_content`. */
  const MaxContentBytes: nat := 20 * 1024 * 1024

  datatype BackupInfo = BackupInfo(location: string, name: string, saveHistory: bool)

  /** The logs of a backup in the reading layout: `<location>/log/<name>`,
      a directory named after the backup inside the location. */
  function LogDir(b: BackupInfo): (r: string)
    ensures !IsAbs(b.name) ==> b.location < r
    ensures '/' !in b.name ==> Basename(r) == b.name
  {
    var dir := Join(b.location, "log");
    JoinAppends(b.location, "log");
    if IsAbs(b.name) then Join(dir, b.name)
    else
      JoinAppends(dir, b.name);
      if '/' in b.name then Join(dir, b.name)
      else
        BasenameOfJoin(dir, b.name);
        Join(dir, b.name)
  }

  /** The snapshots of a backup in the reading layout:
      `<location>/history/<name>`. */
  function HistoryDir(b: BackupInfo): (r: string)
    ensures !IsAbs(b.name) ==> b.location < r
    ensures '/' !in b.name ==> Basename(r) == b.name
  {
    var dir := Join(b.location, "history");
    JoinAppends(b.location, "history");
    if IsAbs(b.name) then Join(dir, b.name)
    else
      JoinAppends(dir, b.name);
      if '/' in b.name then Join(dir, b.name)
      else
        BasenameOfJoin(dir, b.name);
        Join(dir, b.name)
  }

  /** The live copy of a backup in the reading layout:
      `<location>/current/<name>`. */
  function CurrentDir(b: BackupInfo): (r: string)
    ensures !IsAbs(b.name) ==> b.location < r
    ensures '/' !in b.name ==> Basename(r) == b.name
  {
    var dir := Join(b.location, "current");
    JoinAppends(b.location, "current");
    if IsAbs(b.name) then Join(dir, b.name)
    else
      JoinAppends(dir, b.name);
      if '/' in b.name then Join(dir, b.name)
      else
        BasenameOfJoin(dir, b.name);
        Join(dir, b.name)
  }

  /** For a relative name the three directories of a backup are distinct:
      they part at the first letter after the location. */
  lemma ReaderDirsDistinct(b: BackupInfo)
    requires !IsAbs(b.name)
    ensures LogDir(b) != HistoryDir(b) && HistoryDir(b) != CurrentDir(b) && LogDir(b) != CurrentDir(b)
  {
    var loc := b.location;
    var pre := if loc == [] || loc[|loc| - 1] == '/' then loc else loc + "/";
    var log, hist, cur := LogDir(b), HistoryDir(b), CurrentDir(b);
    SubdirLetter(pre, "log", b.name);
    SubdirLetter(pre, "history", b.name);
    SubdirLetter(pre, "current", b.name);
    assert Join(loc, "log") == pre + "log" && Join(loc, "history") == pre + "history";
    assert Join(loc, "current") == pre + "current";
    assert log[|pre|] == 'l' && hist[|pre|] == 'h' && cur[|pre|] == 'c';
  }

  /** Joining a relative name to `pre + w`, for a fixed word `w`, keeps the
      first letter of `w` at position `|pre|`. */
  lemma SubdirLetter(pre: string, w: string, name: string)
    requires w != [] && w[0] != '/' && !IsAbs(name)
    ensures |Join(pre + w, name)| > |pre| && Join(pre + w, name)[|pre|] == w[0]
  {
    JoinAppends(pre + w, name);
    assert (pre + w)[|pre|] == w[0];
  }

  /** `BackupInfo(location, name)`: the location must be a directory; the
      backup has a history when its history directory exists and lists at
      least one entry. Listing a history path that is a file raises. */
  function Open(fs: Fs, location: string, name: string): (r: Outcome<BackupInfo>)
    ensures !IsDir(fs, location) ==> r == Raised(FileNotFoundError)
    ensures r.Raised? ==> r.error in {FileNotFoundError, NotADirectoryError}
    ensures r.Ok? <==> IsDir(fs, location) && (IsDir(fs, HistoryDir(BackupInfo(location, name, false)))
                                              || !Exists(fs, HistoryDir(BackupInfo(location, name, false))))
    ensures r.Ok? ==> r.value.location == location && r.value.name == name
    ensures r.Ok? ==> (r.value.saveHistory <==> exists dt :: dt in Listdir(fs, HistoryDir(r.value)) && IsDir(fs, HistoryDir(r.value)))
  {
    var b := BackupInfo(location, name, false);
    var hist := HistoryDir(b);
    if !IsDir(fs, location) then Raised(FileNotFoundError)
    else if !Exists(fs, hist) then Ok(b)
    else if !IsDir(fs, hist) then Raised(NotADirectoryError)
    else
      var entries := Listdir(fs, hist);
      var info := b.(saveHistory := entries != []);
      assert HistoryDir(info) == hist;
      assert entries != [] ==> entries[0] in entries;
      Ok(info)
  }

  // ---------------------------------------------------------------------
  // the version index

  /** `k` copies of `x`. */
  function Copies(x: string, k: nat): (r: seq<string>)
    ensures |r| == k && forall i :: 0 <= i < k ==> r[i] == x
  {
    if k == 0 then [] else Copies(x, k - 1) + [x]
  }

  /** The entries `get_files_versions` starts from: every requested path
      with no versions yet. */
  function NoVersions(paths: seq<string>): (m: map<string, seq<string>>)
    ensures forall p :: p in m <==> p in paths
    ensures forall p :: p in m ==> m[p] == []
  {
    map p | p in paths :: []
  }

  /** How often `p` occurs among the requested paths. */
  function Count(paths: seq<string>, p: string): nat
  {
    if paths == [] then 0
    else Count(paths[..|paths| - 1], p) + (if paths[|paths| - 1] == p then 1 else 0)
  }

  /** The snapshots among `dts` whose directory under `hist` holds `p`, in
      the order of `dts`, each written `k` times. */
  function Hits(fs: Fs, hist: string, dts: seq<string>, p: string, k: nat): seq<string>
  {
    if dts == [] then []
    else
      var dt := dts[|dts| - 1];
      Hits(fs, hist, dts[..|dts| - 1], p, k)
        + (if Exists(fs, Join(Join(hist, dt), p)) then Copies(dt, k) else [])
  }

  /** The versions of `p` reported when `p` is requested `k` times: the
      snapshots of the history directory, in listing order, that hold `p`.
      No history directory means no versions. */
  function Versions(fs: Fs, b: BackupInfo, p: string, k: nat): seq<string>
  {
    var hist := HistoryDir(b);
    if IsDir(fs, hist) then Hits(fs, hist, Listdir(fs, hist), p, k) else []
  }

  /** `get_files_versions`: one scan of the history directory, checking
      every requested path in every snapshot. */
  method GetFilesVersions(fs: Fs, b: BackupInfo, paths: seq<string>) returns (r: Outcome<map<string, seq<string>>>)
    ensures r.Raised? <==> Exists(fs, HistoryDir(b)) && !IsDir(fs, HistoryDir(b))
    ensures r.Raised? ==> r.error == NotADirectoryError
    ensures r.Ok? ==> forall p :: p in r.value <==> p in paths
    ensures r.Ok? ==> forall p :: p in r.value ==> r.value[p] == Versions(fs, b, p, Count(paths, p))
    ensures !Exists(fs, HistoryDir(b)) ==> r.Ok? && forall p :: p in r.value ==> r.value[p] == []
  {
    var hist := HistoryDir(b);
    var res: map<string, seq<string>> := NoVersions(paths);
    if !Exists(fs, hist) {
      return Ok(res);
    }
    if !IsDir(fs, hist) {
      return Raised(NotADirectoryError);
    }
    res := ScanHistory(fs, hist, paths);
    ScanAllEntries(fs, hist, Listdir(fs, hist), paths);
    return Ok(res);
  }

  /** The outer loop of `get_files_versions`: every listed snapshot of
      `hist`, in listing order, starting from an empty entry per path. */
  method ScanHistory(fs: Fs, hist: string, paths: seq<string>) returns (res: map<string, seq<string>>)
    ensures res == ScanAll(fs, hist, Listdir(fs, hist), paths, NoVersions(paths))
  {
    var dts := Listdir(fs, hist);
    res := NoVersions(paths);
    ghost var start := res;
    var i := 0;
    while i < |dts|
      invariant 0 <= i <= |dts|
      invariant res == ScanAll(fs, hist, dts[..i], paths, start)
    {
      ScanAllKeys(fs, hist, dts[..i], paths, start);
      res := AddVersions(fs, Join(hist, dts[i]), dts[i], paths, res);
      assert dts[..i + 1] == dts[..i] + [dts[i]];
      ScanAllSnoc(fs, hist, dts[..i], dts[i], paths, start);
      i := i + 1;
    }
    assert dts[..i] == dts;
  }

  /** The inner loop of `get_files_versions`: append `dt` to the entry of
      every requested path that snapshot directory `dirname` holds. */
  method AddVersions(fs: Fs, dirname: string, dt: string, paths: seq<string>, res: map<string, seq<string>>)
    returns (res': map<string, seq<string>>)
    requires forall p :: p in paths ==> p in res
    ensures res' == ScanSnapshot(fs, dirname, dt, paths, res)
  {
    res' := res;
    var j := 0;
    while j < |paths|
      invariant 0 <= j <= |paths|
      invariant res' == ScanSnapshot(fs, dirname, dt, paths[..j], res)
    {
      var p := paths[j];
      assert paths[..j + 1] == paths[..j] + [p];
      ScanSnapshotSnoc(fs, dirname, dt, paths[..j], p, res);
      ScanSnapshotKeys(fs, dirname, dt, paths[..j], res);
      if Exists(fs, Join(dirname, p)) {
        res' := res'[p := res'[p] + [dt]];
      }
      j := j + 1;
    }
    assert paths[..j] == paths;
  }

  /** The entries after checking the paths `seen` in snapshot `dt`: each
      path found in the snapshot gets `dt` once more. */
  function ScanSnapshot(fs: Fs, dirname: string, dt: string, seen: seq<string>,
                        m: map<string, seq<string>>): map<string, seq<string>>
  {
    if seen == [] then m
    else
      var prev := ScanSnapshot(fs, dirname, dt, seen[..|seen| - 1], m);
      var p := seen[|seen| - 1];
      if p in prev && Exists(fs, Join(dirname, p)) then prev[p := prev[p] + [dt]] else prev
  }

  /** The entries after scanning the snapshots `dts`. */
  function ScanAll(fs: Fs, hist: string, dts: seq<string>, paths: seq<string>,
                   m: map<string, seq<string>>): map<string, seq<string>>
  {
    if dts == [] then m
    else
      var dt := dts[|dts| - 1];
      ScanSnapshot(fs, Join(hist, dt), dt, paths, ScanAll(fs, hist, dts[..|dts| - 1], paths, m))
  }

  lemma ScanSnapshotSnoc(fs: Fs, dirname: string, dt: string, seen: seq<string>, p: string,
                         m: map<string, seq<string>>)
    ensures var prev := ScanSnapshot(fs, dirname, dt, seen, m);
            ScanSnapshot(fs, dirname, dt, seen + [p], m)
              == if p in prev && Exists(fs, Join(dirname, p)) then prev[p := prev[p] + [dt]] else prev
  {
    assert (seen + [p])[..|seen|] == seen;
  }

  lemma ScanAllSnoc(fs: Fs, hist: string, dts: seq<string>, dt: string, paths: seq<string>,
                    m: map<string, seq<string>>)
    ensures ScanAll(fs, hist, dts + [dt], paths, m)
              == ScanSnapshot(fs, Join(hist, dt), dt, paths, ScanAll(fs, hist, dts, paths, m))
  {
    assert (dts + [dt])[..|dts|] == dts;
  }

  /** Scanning a snapshot adds `dt` to the entries of the paths it holds,
      once per time the path was checked, and keeps the keys. */
  lemma {:induction false} ScanSnapshotEntries(fs: Fs, dirname: string, dt: string, seen: seq<string>,
                                               m: map<string, seq<string>>, q: string)
    requires q in m
    ensures var r := ScanSnapshot(fs, dirname, dt, seen, m);
            q in r && r[q] == m[q] + (if Exists(fs, Join(dirname, q)) then Copies(dt, Count(seen, q)) else [])
    decreases |seen|
  {
    if seen == [] {
      assert Copies(dt, 0) == [];
    } else {
      var front := seen[..|seen| - 1];
      ScanSnapshotEntries(fs, dirname, dt, front, m, q);
      if Exists(fs, Join(dirname, q)) && seen[|seen| - 1] == q {
        assert Copies(dt, Count(front, q)) + [dt] == Copies(dt, Count(front, q) + 1);
      }
    }
  }

  lemma {:induction false} ScanSnapshotKeys(fs: Fs, dirname: string, dt: string, seen: seq<string>,
                                            m: map<string, seq<string>>)
    ensures ScanSnapshot(fs, dirname, dt, seen, m).Keys == m.Keys
    decreases |seen|
  {
    if seen != [] {
      ScanSnapshotKeys(fs, dirname, dt, seen[..|seen| - 1], m);
    }
  }

  lemma {:induction false} ScanAllKeys(fs: Fs, hist: string, dts: seq<string>, paths: seq<string>,
                                       m: map<string, seq<string>>)
    ensures ScanAll(fs, hist, dts, paths, m).Keys == m.Keys
    decreases |dts|
  {
    if dts != [] {
      var dt := dts[|dts| - 1];
      ScanAllKeys(fs, hist, dts[..|dts| - 1], paths, m);
      ScanSnapshotKeys(fs, Join(hist, dt), dt, paths, ScanAll(fs, hist, dts[..|dts| - 1], paths, m));
    }
  }

  /** Scanning all snapshots from empty entries gives each requested path
      the snapshots that hold it. */
  lemma {:induction false} ScanAllEntries(fs: Fs, hist: string, dts: seq<string>, paths: seq<string>)
    ensures var r := ScanAll(fs, hist, dts, paths, NoVersions(paths));
            && (forall q :: q in r <==> q in paths)
            && (forall q :: q in r ==> r[q] == Hits(fs, hist, dts, q, Count(paths, q)))
    decreases |dts|
  {
    var m := NoVersions(paths);
    ScanAllKeys(fs, hist, dts, paths, m);
    if dts != [] {
      var front := dts[..|dts| - 1];
      var dt := dts[|dts| - 1];
      var prev := ScanAll(fs, hist, front, paths, m);
      ScanAllEntries(fs, hist, front, paths);
      forall q | q in paths
        ensures ScanAll(fs, hist, dts, paths, m)[q] == Hits(fs, hist, dts, q, Count(paths, q))
      {
        ScanSnapshotEntries(fs, Join(hist, dt), dt, paths, prev, q);
        HitsSnoc(fs, hist, dts, q, Count(paths, q));
      }
    }
  }

  /** One more listed snapshot adds its copies at the end. */
  lemma HitsSnoc(fs: Fs, hist: string, dts: seq<string>, p: string, k: nat)
    requires dts != []
    ensures Hits(fs, hist, dts, p, k) == Hits(fs, hist, dts[..|dts| - 1], p, k)
              + (if Exists(fs, Join(Join(hist, dts[|dts| - 1]), p)) then Copies(dts[|dts| - 1], k) else [])
  {
  }

  /** `get_file_versions(p)`: the entry for `p` of a one-path scan. */
  method GetFileVersions(fs: Fs, b: BackupInfo, p: string) returns (r: Outcome<seq<string>>)
    ensures r.Raised? <==> Exists(fs, HistoryDir(b)) && !IsDir(fs, HistoryDir(b))
    ensures r.Ok? ==> r.value == Versions(fs, b, p, 1)
  {
    var all := GetFilesVersions(fs, b, [p]);
    if all.Raised? {
      return Raised(all.error);
    }
    assert p in all.value;
    assert Count([p], p) == 1;
    r := Ok(all.value[p]);
  }

  // ---------------------------------------------------------------------
  // properties of the version index

  predicate Distinct(s: seq<string>)
  {
    forall i, j :: 0 <= i < j < |s| ==> s[i] != s[j]
  }

  /** `a` is `b` with some elements left out, order kept. */
  predicate IsSubsequence(a: seq<string>, b: seq<string>)
    decreases |b|
  {
    if a == [] then true
    else if b == [] then false
    else if a[|a| - 1] == b[|b| - 1] then IsSubsequence(a[..|a| - 1], b[..|b| - 1])
    else IsSubsequence(a, b[..|b| - 1])
  }

  /** A snapshot is reported exactly when it is listed and its directory
      holds the path. */
  lemma {:induction false} HitsMembership(fs: Fs, hist: string, dts: seq<string>, p: string, k: nat, dt: string)
    requires k > 0
    ensures dt in Hits(fs, hist, dts, p, k) <==> dt in dts && Exists(fs, Join(Join(hist, dt), p))
    decreases |dts|
  {
    if dts != [] {
      var front := dts[..|dts| - 1];
      var last := dts[|dts| - 1];
      assert dts == front + [last];
      HitsMembership(fs, hist, front, p, k, dt);
      assert Exists(fs, Join(Join(hist, last), p)) ==> Copies(last, k)[0] == last;
    }
  }

  /** With one request per path, the reported snapshots keep the listing
      order. */
  lemma HitsInListingOrder(fs: Fs, hist: string, dts: seq<string>, p: string)
    ensures IsSubsequence(Hits(fs, hist, dts, p, 1), dts)
  {
    var keep := set dt | dt in dts && Exists(fs, Join(Join(hist, dt), p));
    HitsAreFilter(fs, hist, dts, p, keep);
    FilterIsSubsequence(dts, keep);
  }

  /** The elements of `dts` that are in `keep`, in order. */
  function Filter(dts: seq<string>, keep: set<string>): seq<string>
  {
    if dts == [] then []
    else Filter(dts[..|dts| - 1], keep) + (if dts[|dts| - 1] in keep then [dts[|dts| - 1]] else [])
  }

  lemma {:induction false} FilterIsSubsequence(dts: seq<string>, keep: set<string>)
    ensures IsSubsequence(Filter(dts, keep), dts)
    decreases |dts|
  {
    if dts != [] {
      var front := dts[..|dts| - 1];
      var last := dts[|dts| - 1];
      FilterIsSubsequence(front, keep);
      assert front + [last] == dts;
      SubsequenceStep(Filter(front, keep), front, last, last in keep, Filter(dts, keep), dts);
    }
  }

  /** With one request per path, the reported snapshots are the listed ones
      whose directory holds the path. */
  lemma {:induction false} HitsAreFilter(fs: Fs, hist: string, dts: seq<string>, p: string, keep: set<string>)
    requires forall dt :: dt in dts ==> (dt in keep <==> Exists(fs, Join(Join(hist, dt), p)))
    ensures Hits(fs, hist, dts, p, 1) == Filter(dts, keep)
    decreases |dts|
  {
    if dts != [] {
      var front := dts[..|dts| - 1];
      assert forall dt :: dt in front ==> dt in dts;
      HitsAreFilter(fs, hist, front, p, keep);
      HitsOnce(fs, hist, dts, p);
    }
  }

  /** With one request, one more listed snapshot adds at most itself. */
  lemma HitsOnce(fs: Fs, hist: string, dts: seq<string>, p: string)
    requires dts != []
    ensures Hits(fs, hist, dts, p, 1) == Hits(fs, hist, dts[..|dts| - 1], p, 1)
              + (if Exists(fs, Join(Join(hist, dts[|dts| - 1]), p)) then [dts[|dts| - 1]] else [])
  {
    assert Copies(dts[|dts| - 1], 1) == [dts[|dts| - 1]];
  }

  lemma SubsequenceStep(a: seq<string>, b: seq<string>, x: string, kept: bool, a': seq<string>, b': seq<string>)
    requires IsSubsequence(a, b)
    requires a' == a + (if kept then [x] else []) && b' == b + [x]
    ensures IsSubsequence(a', b')
  {
    if kept {
      SubsequenceSnoc(a, b, x);
    } else {
      assert a + [] == a;
      SubsequenceOfPrefix(a, b, x);
    }
  }

  /** Adding the same element at the end of both keeps a subsequence. */
  lemma SubsequenceSnoc(a: seq<string>, b: seq<string>, x: string)
    requires IsSubsequence(a, b)
    ensures IsSubsequence(a + [x], b + [x])
  {
    assert (a + [x])[..|a|] == a && (b + [x])[..|b|] == b;
  }

  /** A subsequence of `b` stays one when `b` grows at the end. */
  lemma {:induction false} SubsequenceOfPrefix(a: seq<string>, b: seq<string>, x: string)
    requires IsSubsequence(a, b)
    ensures IsSubsequence(a, b + [x])
    decreases |b|, 1
  {
    assert (b + [x])[..|b|] == b;
    if a != [] && a[|a| - 1] == x {
      SubsequenceDropLast(a, b);
    }
  }

  /** Leaving out the last element of `a` keeps it a subsequence. */
  lemma {:induction false} SubsequenceDropLast(a: seq<string>, b: seq<string>)
    requires a != [] && IsSubsequence(a, b)
    ensures IsSubsequence(a[..|a| - 1], b)
    decreases |b|, 0
  {
    var front := b[..|b| - 1];
    assert front + [b[|b| - 1]] == b;
    if a[|a| - 1] != b[|b| - 1] {
      SubsequenceDropLast(a, front);
    }
    SubsequenceOfPrefix(a[..|a| - 1], front, b[|b| - 1]);
  }

  /** With one request per path and a listing without repeats, no snapshot
      is reported twice. */
  lemma {:induction false} HitsDistinct(fs: Fs, hist: string, dts: seq<string>, p: string)
    requires Distinct(dts)
    ensures Distinct(Hits(fs, hist, dts, p, 1))
    decreases |dts|
  {
    if dts != [] {
      var front := dts[..|dts| - 1];
      var last := dts[|dts| - 1];
      var h := Hits(fs, hist, front, p, 1);
      HitsDistinct(fs, hist, front, p);
      HitsOnce(fs, hist, dts, p);
      if Exists(fs, Join(Join(hist, last), p)) {
        assert last !in front;
        HitsMembership(fs, hist, front, p, 1, last);
        DistinctSnoc(h, last);
      } else {
        assert h + [] == h;
      }
    }
  }

  lemma DistinctSnoc(s: seq<string>, x: string)
    requires Distinct(s) && x !in s
    ensures Distinct(s + [x])
  {
  }

  /** A path requested `k` times gets every snapshot that holds it `k`
      times. */
  lemma {:induction false} HitsRepeat(fs: Fs, hist: string, dts: seq<string>, p: string, k: nat)
    ensures |Hits(fs, hist, dts, p, k)| == k * |Hits(fs, hist, dts, p, 1)|
    decreases |dts|
  {
    if dts != [] {
      var front := dts[..|dts| - 1];
      var last := dts[|dts| - 1];
      var n := |Hits(fs, hist, front, p, 1)|;
      HitsRepeat(fs, hist, front, p, k);
      if Exists(fs, Join(Join(hist, last), p)) {
        assert |Hits(fs, hist, dts, p, 1)| == n + 1;
        assert |Hits(fs, hist, dts, p, k)| == k * n + k;
        MultiplySucc(k, n);
      }
    }
  }

  /** (A lemma of its own: stated inline, the product is expensive for the
      solver amid the facts about the hits.) */
  lemma MultiplySucc(k: nat, n: nat)
    ensures k * (n + 1) == k * n + k
  {
  }

  /** Each path of a request without repeats is counted once, so its
      versions are the plain index. */
  lemma {:induction false} CountOfDistinct(paths: seq<string>, p: string)
    requires Distinct(paths) && p in paths
    ensures Count(paths, p) == 1
    decreases |paths|
  {
    var front := paths[..|paths| - 1];
    var last := paths[|paths| - 1];
    assert paths == front + [last];
    assert Distinct(front);
    if p == last {
      assert p !in front;
      CountAbsent(front, p);
    } else {
      CountOfDistinct(front, p);
    }
  }

  lemma {:induction false} CountAbsent(paths: seq<string>, p: string)
    requires p !in paths
    ensures Count(paths, p) == 0
    decreases |paths|
  {
    if paths != [] {
      assert paths[..|paths| - 1] + [paths[|paths| - 1]] == paths;
      CountAbsent(paths[..|paths| - 1], p);
    }
  }

  /** The properties of the index of one path: exactly the listed snapshots
      holding it, in listing order, none twice. A backup opened without
      history has no versions at all. */
  lemma VersionsOfOnePath(fs: Fs, b: BackupInfo, p: string, dt: string)
    requires Distinct(Listdir(fs, HistoryDir(b)))
    ensures dt in Versions(fs, b, p, 1) <==>
              IsDir(fs, HistoryDir(b)) && dt in Listdir(fs, HistoryDir(b)) && Exists(fs, Join(Join(HistoryDir(b), dt), p))
    ensures IsSubsequence(Versions(fs, b, p, 1), Listdir(fs, HistoryDir(b)))
    ensures Distinct(Versions(fs, b, p, 1))
  {
    var hist := HistoryDir(b);
    HitsMembership(fs, hist, Listdir(fs, hist), p, 1, dt);
    HitsInListingOrder(fs, hist, Listdir(fs, hist), p);
    HitsDistinct(fs, hist, Listdir(fs, hist), p);
  }

  /** When `Open` finds no history, every path has an empty version list. */
  lemma NoHistoryNoVersions(fs: Fs, location: string, name: string, p: string)
    requires Open(fs, location, name).Ok? && !Open(fs, location, name).value.saveHistory
    ensures Versions(fs, Open(fs, location, name).value, p, 1) == []
  {
    var b := Open(fs, location, name).value;
    var hist := HistoryDir(b);
    if IsDir(fs, hist) {
      assert Listdir(fs, hist) == [];
    }
  }

  // ---------------------------------------------------------------------
  // file content

  /** `get_file_content`'s choice of file: a snapshot for a real version,
      the live copy for no version, `current` or `None`. */
  function ContentPath(b: BackupInfo, fileName: string, version: Option<string>): string
  {
    if version.Some? && version.value != "" && version.value != "current" && version.value != "None"
    then Join(Join(HistoryDir(b), version.value), fileName)
    else Join(CurrentDir(b), fileName)
  }

  /** `get_file_content`: the file read, or None when the chosen path is not
      a file or is too large. The bytes themselves are not modelled. */
  function FileContent(fs: Fs, b: BackupInfo, fileName: string, version: Option<string>): (r: Option<string>)
    ensures r.Some? <==> IsFile(fs, ContentPath(b, fileName, version))
                         && fs.files[ContentPath(b, fileName, version)] <= MaxContentBytes
    ensures r.Some? ==> r.value == ContentPath(b, fileName, version)
  {
    var path := ContentPath(b, fileName, version);
    if !IsFile(fs, path) || fs.files[path] > MaxContentBytes then None else Some(path)
  }

  /** A real version reads inside that snapshot of the history directory;
      the sentinels read inside the live copy. */
  lemma ContentLocation(b: BackupInfo, fileName: string, version: Option<string>)
    requires !IsAbs(fileName)
    requires version.Some? ==> !IsAbs(version.value)
    ensures var path := ContentPath(b, fileName, version);
            if version.Some? && version.value !in {"", "current", "None"}
            then HistoryDir(b) <= path && path[|path| - |fileName|..] == fileName
                 && |path| >= |HistoryDir(b)| + |version.value| + |fileName|
            else CurrentDir(b) <= path && path[|path| - |fileName|..] == fileName
  {
    if version.Some? && version.value !in {"", "current", "None"} {
      var snap := Join(HistoryDir(b), version.value);
      JoinAppends(HistoryDir(b), version.value);
      JoinAppends(snap, fileName);
    } else {
      JoinAppends(CurrentDir(b), fileName);
    }
  }

  // ---------------------------------------------------------------------
  // the two layouts

  lemma LastNameHistory(a: string)
    ensures Basename(Join(a, "history")) == "history"
  {
    var w := "history";
    assert '/' !in w;
    BasenameOfJoin(a, w);
  }

  /** The read side and the backup side place the history differently: the
      reader's history directory is named after the backup, the writer's is
      named `history` inside the live copy's `.rhb`. For any backup name
      other than `history` the two paths differ. */
  lemma LayoutsDiffer(s: Backup.Settings, b: BackupInfo)
    requires !s.localHistory && s.destination == b.location && s.name == b.name
    requires '/' !in b.name && b.name != "history"
    ensures Basename(HistoryDir(b)) == b.name
    ensures Basename(Backup.HistoryDir(s)) == "history"
    ensures HistoryDir(b) != Backup.HistoryDir(s)
  {
    BasenameOfJoin(Join(b.location, "history"), b.name);
    LastNameHistory(Join(Join(s.destination, s.name), ".rhb"));
  }
}
