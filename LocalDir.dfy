/** The search for a local settings directory: from the working directory
    upwards, the first directory holding `.rhb/config.json`. */
module LocalDir {
  import opened Wrappers
  import opened PosixPath
  import opened FileSystem

  /** The configuration file that marks `dir` as a local settings
      directory. */
  function ConfigFile(dir: string): string
  {
    Join(Join(dir, ".rhb"), "config.json")
  }

  predicate HasConfig(fs: Fs, dir: string)
  {
    IsFile(fs, ConfigFile(dir))
  }

  /** The nearest of the directory with components `cs` and its ancestors
      that holds a configuration file, looking at the directory itself
      first and at the root last. */
  function Nearest(fs: Fs, cs: seq<string>): Option<string>
    decreases |cs|
  {
    if HasConfig(fs, Render(cs)) then Some(Render(cs))
    else if cs == [] then None
    else Nearest(fs, cs[..|cs| - 1])
  }

  /** `find_rhb_local_dir(cwd)`: check `cwd`, then move to
      `normpath(join(cwd, '..'))` until the parent is the directory itself.
      `cwd` comes from `os.getcwd()` or `os.path.abspath`, so it is a
      normalised absolute path; the loop ends because every move drops one
      component. */
  method FindRhbLocalDir(fs: Fs, cwd: string) returns (r: Option<string>)
    requires IsNormAbs(cwd)
    ensures r == Nearest(fs, Components(cwd))
  {
    var current := cwd;
    ghost var cs := Components(cwd);
    NormalIsRender(cwd);
    while true
      invariant AllComponents(cs) && current == Render(cs)
      invariant Nearest(fs, Components(cwd)) == Nearest(fs, cs)
      decreases |cs|
    {
      if IsFile(fs, ConfigFile(current)) {
        return Some(current);
      }
      var parent := NormPath(Join(current, ".."));
      ParentOfRender(cs);
      if parent == current {
        if cs != [] {
          ParentIsShorter(cs);
        }
        return None;
      }
      current := parent;
      cs := DropLast(cs);
    }
  }

  /** Directory `j` levels below the root on the way to `cs`: the
      working directory is `Ancestor(cs, |cs|)`, the root `Ancestor(cs, 0)`. */
  function Ancestor(cs: seq<string>, j: nat): string
    requires j <= |cs|
  {
    Render(cs[..j])
  }

  lemma AncestorOfFront(cs: seq<string>, j: nat)
    requires cs != [] && j <= |cs| - 1
    ensures Ancestor(cs[..|cs| - 1], j) == Ancestor(cs, j)
  {
    assert cs[..|cs| - 1][..j] == cs[..j];
  }

  /** A directory the search returns holds a configuration file, is the
      working directory or one of its ancestors, and no directory between it
      and the working directory holds one. */
  lemma {:induction false} NearestIsClosest(fs: Fs, cs: seq<string>)
    requires Nearest(fs, cs).Some?
    ensures exists k :: 0 <= k <= |cs| && Nearest(fs, cs).value == Ancestor(cs, k)
                        && HasConfig(fs, Ancestor(cs, k))
                        && forall j :: k < j <= |cs| ==> !HasConfig(fs, Ancestor(cs, j))
    decreases |cs|
  {
    assert cs[..|cs|] == cs;
    assert Ancestor(cs, |cs|) == Render(cs);
    if HasConfig(fs, Render(cs)) {
      assert Nearest(fs, cs).value == Ancestor(cs, |cs|);
    } else {
      var front := cs[..|cs| - 1];
      NearestIsClosest(fs, front);
      var k :| 0 <= k <= |front| && Nearest(fs, front).value == Ancestor(front, k)
               && HasConfig(fs, Ancestor(front, k))
               && forall j :: k < j <= |front| ==> !HasConfig(fs, Ancestor(front, j));
      AncestorOfFront(cs, k);
      forall j | k < j <= |cs|
        ensures !HasConfig(fs, Ancestor(cs, j))
      {
        if j < |cs| {
          AncestorOfFront(cs, j);
        }
      }
      assert Nearest(fs, cs).value == Ancestor(cs, k);
    }
  }

  /** The search returns nothing exactly when neither the working directory
      nor any of its ancestors holds a configuration file. */
  lemma {:induction false} NearestNone(fs: Fs, cs: seq<string>)
    ensures Nearest(fs, cs).None? <==> forall j :: 0 <= j <= |cs| ==> !HasConfig(fs, Ancestor(cs, j))
    decreases |cs|
  {
    assert cs[..|cs|] == cs;
    assert Ancestor(cs, |cs|) == Render(cs);
    if !HasConfig(fs, Render(cs)) && cs != [] {
      var front := cs[..|cs| - 1];
      NearestNone(fs, front);
      forall j | 0 <= j < |cs|
        ensures Ancestor(front, j) == Ancestor(cs, j)
      {
        AncestorOfFront(cs, j);
      }
    }
  }

  /** A directory that itself holds a configuration file is returned as it
      is. */
  lemma SelfFirst(fs: Fs, cwd: string)
    requires IsNormAbs(cwd) && HasConfig(fs, cwd)
    ensures Nearest(fs, Components(cwd)) == Some(cwd)
  {
    NormalIsRender(cwd);
  }
}
