/** The parts of `os.path` (POSIX flavour) the backup code uses: `join`,
    `basename`, `normpath` and `abspath`. A normalised absolute path is the
    rendering of a list of plain components, which is what makes the upward
    directory search in `LocalDir` terminate. */
module PosixPath {
  import opened PyText

  predicate IsAbs(p: string)
  {
    |p| > 0 && p[0] == '/'
  }

  /** `os.path.join(a, b)`: an absolute `b` replaces `a`; otherwise `b` is
      appended after a single separator, unless `a` is empty or already ends
      with one. */
  function Join(a: string, b: string): (r: string)
    ensures IsAbs(b) ==> r == b
    ensures IsAbs(a) ==> IsAbs(r)
  {
    if IsAbs(b) then b
    else if a == [] || a[|a| - 1] == '/' then a + b
    else a + "/" + b
  }

  /** A relative `b` is appended to `a`, with at most one separator between
      them. */
  lemma JoinAppends(a: string, b: string)
    requires !IsAbs(b)
    ensures var r := Join(a, b);
            |a| + |b| <= |r| <= |a| + |b| + 1 && a <= r && r[|r| - |b|..] == b
  {
    var r := Join(a, b);
    if a == [] || a[|a| - 1] == '/' {
      assert r == a + b;
    } else {
      assert r == a + "/" + b;
    }
  }

  /** `os.path.basename(p)`: the longest suffix of `p` without a separator. */
  function Basename(p: string): (r: string)
    ensures '/' !in r
    ensures |r| <= |p| && r == p[|p| - |r|..]
    ensures |r| < |p| ==> p[|p| - |r| - 1] == '/'
  {
    if p == [] || p[|p| - 1] == '/' then ""
    else
      var front := Basename(p[..|p| - 1]);
      assert p[..|p| - 1][|p| - 1 - |front|..] == p[|p| - 1 - |front|..|p| - 1];
      front + [p[|p| - 1]]
  }

  /** The last component of a path that has a separator before it. */
  lemma BasenameAfterSeparator(a: string, w: string)
    requires '/' !in w
    ensures Basename(a + "/" + w) == w
  {
    var p := a + "/" + w;
    var r := Basename(p);
    assert p[|p| - |w|..] == w;
    assert p[|p| - |w| - 1] == '/';
    assert r == p[|p| - |r|..];
  }

  /** Joining a name without separators makes it the base name. */
  lemma BasenameOfJoin(a: string, w: string)
    requires '/' !in w
    ensures Basename(Join(a, w)) == w
  {
    if a == [] {
      var r := Basename(w);
      assert r == w[|w| - |r|..];
    } else if a[|a| - 1] == '/' {
      assert a + w == a[..|a| - 1] + "/" + w;
      BasenameAfterSeparator(a[..|a| - 1], w);
    } else {
      BasenameAfterSeparator(a, w);
    }
  }

  // ---------------------------------------------------------------------
  // normpath

  /** A name that `normpath` keeps as it is. */
  predicate IsComponent(c: string)
  {
    c != "" && c != "." && c != ".." && '/' !in c
  }

  predicate AllComponents(cs: seq<string>)
  {
    forall i :: 0 <= i < |cs| ==> IsComponent(cs[i])
  }

  predicate NoSeparators(parts: seq<string>)
  {
    forall i :: 0 <= i < |parts| ==> '/' !in parts[i]
  }

  /** One piece of an absolute path: empty pieces and `.` vanish, `..` drops
      the last kept component (and stays at the root), anything else is kept. */
  function Step(stack: seq<string>, part: string): seq<string>
  {
    if part == "" || part == "." then stack
    else if part == ".." then (if stack == [] then [] else stack[..|stack| - 1])
    else stack + [part]
  }

  function Resolve(parts: seq<string>, stack: seq<string>): (r: seq<string>)
    requires NoSeparators(parts)
    requires AllComponents(stack)
    ensures AllComponents(r)
    decreases |parts|
  {
    if parts == [] then stack
    else Resolve(parts[1..], Step(stack, parts[0]))
  }

  /** The components `normpath` keeps of an absolute path. */
  function Components(p: string): (cs: seq<string>)
    ensures AllComponents(cs)
  {
    Resolve(Split(p, '/'), [])
  }

  /** The absolute path made of the given components. */
  function Render(cs: seq<string>): string
  {
    "/" + JoinWith(cs, '/')
  }

  /** `os.path.normpath` of an absolute path. */
  function NormPath(p: string): (r: string)
    requires IsAbs(p)
    ensures IsAbs(r)
  {
    Render(Components(p))
  }

  /** `os.path.abspath(p)` with `cwd` standing for `os.getcwd()`. */
  function AbsPath(cwd: string, p: string): (r: string)
    requires IsAbs(cwd)
    ensures IsAbs(r)
  {
    NormPath(Join(cwd, p))
  }

  predicate IsNormAbs(p: string)
  {
    IsAbs(p) && NormPath(p) == p
  }

  function DropLast(cs: seq<string>): seq<string>
  {
    if cs == [] then [] else cs[..|cs| - 1]
  }

  // ---------------------------------------------------------------------
  // lemmas

  lemma {:induction false} ResolveAppend(a: seq<string>, b: seq<string>, stack: seq<string>)
    requires NoSeparators(a) && NoSeparators(b) && AllComponents(stack)
    ensures NoSeparators(a + b)
    ensures Resolve(a + b, stack) == Resolve(b, Resolve(a, stack))
    decreases |a|
  {
    assert forall i :: 0 <= i < |a + b| ==> (a + b)[i] == if i < |a| then a[i] else b[i - |a|];
    if a == [] {
      assert a + b == b;
    } else {
      assert (a + b)[1..] == a[1..] + b;
      ResolveAppend(a[1..], b, Step(stack, a[0]));
    }
  }

  /** Plain components are kept as they are, in order. */
  lemma {:induction false} ResolvePlain(cs: seq<string>, stack: seq<string>)
    requires AllComponents(cs) && AllComponents(stack)
    ensures Resolve(cs, stack) == stack + cs
    decreases |cs|
  {
    if cs == [] {
      assert stack + cs == stack;
    } else {
      ResolvePlain(cs[1..], stack + [cs[0]]);
      assert stack + [cs[0]] + cs[1..] == stack + cs;
    }
  }

  lemma {:induction false} JoinWithSnoc(x: seq<string>, y: string, sep: char)
    ensures JoinWith(x + [y], sep) == if x == [] then y else JoinWith(x, sep) + [sep] + y
    decreases |x|
  {
    if x == [] {
      assert x + [y] == [y];
    } else if |x| == 1 {
      assert x + [y] == [x[0], y];
      assert (x + [y])[1..] == [y];
    } else {
      assert (x + [y])[1..] == x[1..] + [y];
      JoinWithSnoc(x[1..], y, sep);
    }
  }

  /** Splitting a rendered path gives an empty piece for the root, then the
      components. */
  lemma SplitRender(cs: seq<string>)
    requires AllComponents(cs)
    ensures Split(Render(cs), '/') == if cs == [] then ["", ""] else [""] + cs
  {
    if cs == [] {
      assert Render(cs) == "/";
      assert Split("/", '/') == [""] + Split("", '/');
    } else {
      var parts := [""] + cs;
      assert parts[1..] == cs;
      assert JoinWith(parts, '/') == "" + "/" + JoinWith(cs, '/');
      assert "" + "/" + JoinWith(cs, '/') == Render(cs);
      SplitJoin(parts, '/');
    }
  }

  /** `normpath` recovers the components of a rendered path. */
  lemma ComponentsOfRender(cs: seq<string>)
    requires AllComponents(cs)
    ensures Components(Render(cs)) == cs
  {
    SplitRender(cs);
    if cs == [] {
      assert Resolve(["", ""], []) == [];
    } else {
      ResolveAppend([""], cs, []);
      assert Resolve([""], []) == [];
      ResolvePlain(cs, []);
      assert [] + cs == cs;
    }
  }

  /** A normalised path is a fixed point of `normpath`. */
  lemma NormPathIdempotent(p: string)
    requires IsAbs(p)
    ensures IsNormAbs(NormPath(p))
  {
    ComponentsOfRender(Components(p));
  }

  /** A rendered path is normalised and is the rendering of its own
      components. */
  lemma RenderIsNormal(cs: seq<string>)
    requires AllComponents(cs)
    ensures IsNormAbs(Render(cs))
  {
    ComponentsOfRender(cs);
  }

  /** A normalised absolute path is the rendering of its components. */
  lemma NormalIsRender(p: string)
    requires IsNormAbs(p)
    ensures p == Render(Components(p))
  {
  }

  /** `normpath(join(p, '..'))` of a normalised path drops its last
      component; at the root it gives the root back. */
  lemma ParentOfRender(cs: seq<string>)
    requires AllComponents(cs)
    ensures NormPath(Join(Render(cs), "..")) == Render(DropLast(cs))
  {
    if cs == [] {
      ParentOfRoot();
    } else {
      var parts := [""] + cs + [".."];
      ParentSplit(cs);
      ResolveAppend([""] + cs, [".."], []);
      ResolveAppend([""], cs, []);
      ResolvePlain(cs, []);
      assert [] + cs == cs;
      assert Resolve([".."], cs) == cs[..|cs| - 1];
    }
  }

  lemma ParentOfRoot()
    ensures NormPath(Join(Render([]), "..")) == Render([])
  {
    assert Join(Render([]), "..") == "/..";
    assert Split("..", '/') == [".."] by {
      assert Split(".", '/') == ["."] by {
        assert "."[1..] == "" && "."[0] == '.';
        assert Split("", '/') == [""];
        assert ['.'] + "" == ".";
      }
      assert ".."[1..] == "." && ".."[0] == '.';
      assert ['.'] + "." == "..";
    }
    assert Split("/..", '/') == ["", ".."] by {
      assert "/.."[1..] == "..";
    }
    assert Resolve(["", ".."], []) == [];
  }

  /** The pieces of `join(p, '..')` for a normalised path other than the
      root. */
  lemma ParentSplit(cs: seq<string>)
    requires AllComponents(cs) && cs != []
    ensures NoSeparators([""] + cs) && NoSeparators([".."])
    ensures Split(Join(Render(cs), ".."), '/') == [""] + cs + [".."]
  {
    var parts := [""] + cs + [".."];
    ParentSeparators(cs);
    ParentJoined(cs);
    SplitJoin(parts, '/');
  }

  lemma ParentSeparators(cs: seq<string>)
    requires AllComponents(cs)
    ensures NoSeparators([""] + cs) && NoSeparators([""] + cs + [".."])
  {
    var parts := [""] + cs + [".."];
    forall i | 0 <= i < |parts| ensures '/' !in parts[i] {
      if 0 < i < |parts| - 1 {
        assert parts[i] == cs[i - 1];
      }
    }
    forall i | 0 <= i < |cs| + 1 ensures '/' !in ([""] + cs)[i] {
      assert ([""] + cs)[i] == parts[i];
    }
  }

  /** `join(p, '..')` for a normalised path other than the root is its
      pieces, with `..` added, joined by separators. */
  lemma ParentJoined(cs: seq<string>)
    requires AllComponents(cs) && cs != []
    ensures JoinWith([""] + cs + [".."], '/') == Join(Render(cs), "..")
  {
    RenderEndsInComponent(cs);
    assert JoinWith([""] + cs, '/') == Render(cs) by {
      assert ([""] + cs)[1..] == cs;
    }
    JoinWithSnoc([""] + cs, "..", '/');
  }

  /** The rendering of a non-empty path does not end in a separator. */
  lemma RenderEndsInComponent(cs: seq<string>)
    requires AllComponents(cs) && cs != []
    ensures Render(cs)[|Render(cs)| - 1] != '/'
  {
    var last := cs[|cs| - 1];
    var front := cs[..|cs| - 1];
    assert cs == front + [last];
    JoinWithSnoc(front, last, '/');
    var j := JoinWith(cs, '/');
    assert j[|j| - 1] == last[|last| - 1];
  }

  /** Dropping a component makes the rendered path strictly shorter. */
  lemma ParentIsShorter(cs: seq<string>)
    requires AllComponents(cs) && cs != []
    ensures |Render(DropLast(cs))| < |Render(cs)|
  {
    var front := cs[..|cs| - 1];
    assert cs == front + [cs[|cs| - 1]];
    JoinWithSnoc(front, cs[|cs| - 1], '/');
  }
}
