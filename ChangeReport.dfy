/** How the backup turns rsync's itemized dry-run report into a change log.

    rsync is run with `--itemize-changes --out-format="%i|%n|"`, so every line
    of the report is an eleven-character flag string, a bar, the file name and
    a closing bar, wrapped in double quotes. The report is first cleaned
    (every `"` removed, then every unchanged-root line removed) and then three
    patterns are searched for independently:

      created:  two of `>fcd`, nine of `.+`, `|`, name, `|`
      deleted:  `*deleting  `, `|`, name, `|`
      changed:  eleven of `>f.st`, `|`, name, `|`

    None of the pattern characters is a line break and the name part stops at a
    line break, so every match lies inside one line; within a line the search
    takes the leftmost position where the pattern fits, and the greedy name part
    runs up to the last bar of the line, after which nothing on that line can
    match again. The model therefore classifies the report line by line. */
module ChangeReport {
  import opened Wrappers
  import opened PyText

  /** The change log: for each key, the names in report order. */
  datatype ChangeLog = ChangeLog(created: seq<string>, deleted: seq<string>, changed: seq<string>)

  datatype Category = Created | Deleted | Changed

  const DeletingFlags: string := "*deleting  "

  /** The line rsync reports for the (unchanged) root of the transfer. */
  const RootLine: string := ".d..t......|./|\n"

  /** The clean-up before classification: drop every double quote, then every
      root line. */
  function Clean(raw: string): (text: string)
    ensures '"' !in text
    ensures |text| <= |raw|
  {
    RemoveDropsChar(raw, '"');
    Remove(Remove(raw, "\""), RootLine)
  }

  /** Whether `c` may stand at position `i` of the flag string of `cat`. */
  predicate FlagChar(cat: Category, i: nat, c: char)
  {
    match cat
    case Created =>
      if i < 2 then c == '>' || c == 'f' || c == 'c' || c == 'd' else c == '.' || c == '+'
    case Deleted =>
      i < |DeletingFlags| && c == DeletingFlags[i]
    case Changed =>
      c == '>' || c == 'f' || c == '.' || c == 's' || c == 't'
  }

  /** An eleven-character flag string that the pattern of `cat` accepts. */
  predicate FlagsFit(cat: Category, flags: string)
  {
    |flags| == 11 && forall i :: 0 <= i < 11 ==> FlagChar(cat, i, flags[i])
  }

  /** The pattern of `cat` fits `line` at position `p`: eleven flag
      characters, a bar, and at least one more bar later on the line. */
  predicate MatchesAt(cat: Category, line: string, p: nat)
  {
    && p + 13 <= |line|
    && FlagsFit(cat, line[p..p + 11])
    && line[p + 11] == '|'
    && '|' in line[p + 12..]
  }

  /** The leftmost position at or after `from` where the pattern fits. */
  function FirstMatch(cat: Category, line: string, from: nat): (r: Option<nat>)
    ensures r.Some? ==> from <= r.value && MatchesAt(cat, line, r.value)
    ensures forall q :: from <= q && (r.None? || q < r.value) ==> !MatchesAt(cat, line, q)
    decreases |line| - from
  {
    if from + 13 > |line| then None
    else if MatchesAt(cat, line, from) then Some(from)
    else FirstMatch(cat, line, from + 1)
  }

  /** The position of the last bar of a line. */
  function LastBar(line: string): (k: nat)
    requires '|' in line
    ensures k < |line| && line[k] == '|'
    ensures forall j :: k < j < |line| ==> line[j] != '|'
  {
    if line[|line| - 1] == '|' then |line| - 1
    else
      assert '|' in line[..|line| - 1] by {
        var i :| 0 <= i < |line| && line[i] == '|';
        assert line[..|line| - 1][i] == '|';
      }
      LastBar(line[..|line| - 1])
  }

  /** The group the pattern of `cat` captures on one line, if it matches:
      from after the bar that ends the flags up to the last bar. */
  function Captured(cat: Category, line: string): (r: Option<string>)
    ensures r.Some? <==> exists p :: MatchesAt(cat, line, p)
  {
    match FirstMatch(cat, line, 0)
    case None => None
    case Some(p) =>
      assert p + 12 <= LastBar(line) by {
        var i :| 0 <= i < |line[p + 12..]| && line[p + 12..][i] == '|';
        assert line[p + 12 + i] == '|';
      }
      Some(line[p + 12..LastBar(line)])
  }

  /** What one line contributes to the list of `cat`: its captured name,
      unless that name is empty. */
  function Hit(cat: Category, line: string): seq<string>
  {
    match Captured(cat, line)
    case Some(name) => if name != "" then [name] else []
    case None => []
  }

  /** The names of `cat` found in the report lines, in report order. */
  function Found(cat: Category, lines: seq<string>): seq<string>
  {
    if lines == [] then [] else Hit(cat, lines[0]) + Found(cat, lines[1..])
  }

  function Lines(text: string): seq<string>
  {
    Split(text, '\n')
  }

  /** The change log of a cleaned report. The three lists are built
      independently of each other; each holds at most one name per line of
      the report, and every name is non-empty and lies within one line. */
  function Classify(text: string): (r: ChangeLog)
    ensures |r.created| <= |Lines(text)| && |r.deleted| <= |Lines(text)| && |r.changed| <= |Lines(text)|
    ensures ProperNames(r.created) && ProperNames(r.deleted) && ProperNames(r.changed)
  {
    var lines := Lines(text);
    FoundBound(Created, lines);
    FoundBound(Deleted, lines);
    FoundBound(Changed, lines);
    assert forall i :: 0 <= i < |lines| ==> '\n' !in lines[i];
    FoundInLines(Created, lines);
    FoundInLines(Deleted, lines);
    FoundInLines(Changed, lines);
    ChangeLog(Found(Created, lines), Found(Deleted, lines), Found(Changed, lines))
  }

  // ---------------------------------------------------------------------
  // lemmas

  /** A name is listed under `cat` exactly when some line captures it under
      that pattern and it is not empty. */
  lemma {:induction false} FoundMembership(cat: Category, lines: seq<string>, name: string)
    ensures name in Found(cat, lines) <==>
            name != "" && exists i :: 0 <= i < |lines| && Captured(cat, lines[i]) == Some(name)
    decreases |lines|
  {
    if lines != [] {
      FoundMembership(cat, lines[1..], name);
      if name != "" && Captured(cat, lines[0]) != Some(name) {
        if exists i :: 0 <= i < |lines| && Captured(cat, lines[i]) == Some(name) {
          var i :| 0 <= i < |lines| && Captured(cat, lines[i]) == Some(name);
          assert i > 0;
          assert lines[1..][i - 1] == lines[i];
        }
      }
      if name != "" && (exists i :: 0 <= i < |lines[1..]| && Captured(cat, lines[1..][i]) == Some(name)) {
        var i :| 0 <= i < |lines[1..]| && Captured(cat, lines[1..][i]) == Some(name);
        assert lines[i + 1] == lines[1..][i];
      }
    }
  }

  /** Each line contributes at most one name to each list. */
  lemma {:induction false} FoundBound(cat: Category, lines: seq<string>)
    ensures |Found(cat, lines)| <= |lines|
    ensures forall i :: 0 <= i < |Found(cat, lines)| ==> Found(cat, lines)[i] != ""
    decreases |lines|
  {
    if lines != [] {
      FoundBound(cat, lines[1..]);
    }
  }

  /** A captured name is a piece of its line, so it holds only characters of
      the line. */
  lemma CapturedInLine(cat: Category, line: string)
    ensures Captured(cat, line).Some? ==> forall c :: c in Captured(cat, line).value ==> c in line
  {
    match FirstMatch(cat, line, 0)
    case None =>
    case Some(p) =>
      var name := Captured(cat, line).value;
      assert name == line[p + 12..LastBar(line)];
      forall c | c in name
        ensures c in line
      {
        var i :| 0 <= i < |name| && name[i] == c;
        assert line[p + 12 + i] == c;
      }
  }

  /** Names that can stand on a line of their own: not empty, no line
      break. */
  predicate ProperNames(names: seq<string>)
  {
    forall name :: name in names ==> name != "" && '\n' !in name
  }

  /** Names found in lines without a line break have none either; the lines
      of a report are such lines, being pieces of a split at line breaks. */
  lemma {:induction false} FoundInLines(cat: Category, lines: seq<string>)
    requires forall i :: 0 <= i < |lines| ==> '\n' !in lines[i]
    ensures ProperNames(Found(cat, lines))
    decreases |lines|
  {
    if lines != [] {
      FoundInLines(cat, lines[1..]);
      CapturedInLine(cat, lines[0]);
      assert Found(cat, lines) == Hit(cat, lines[0]) + Found(cat, lines[1..]);
    }
  }

  /** The lists of a report built from two parts are the lists of the parts,
      in order. */
  lemma {:induction false} FoundConcat(cat: Category, a: seq<string>, b: seq<string>)
    ensures Found(cat, a + b) == Found(cat, a) + Found(cat, b)
    decreases |a|
  {
    if a == [] {
      assert a + b == b;
    } else {
      assert (a + b)[1..] == a[1..] + b;
      FoundConcat(cat, a[1..], b);
    }
  }

  /** A report line in the shape `--out-format="%i|%n|"` produces (once the
      quotes are gone): eleven flag characters, a bar, a name without bars and
      a closing bar. Only a match at the start of the line is possible, and it
      captures exactly the name. */
  lemma WellFormedLine(cat: Category, flags: string, name: string)
    requires |flags| == 11 && '|' !in flags && '|' !in name
    ensures Captured(cat, flags + "|" + name + "|") == if FlagsFit(cat, flags) then Some(name) else None
  {
    var line := flags + "|" + name + "|";
    assert |line| == |name| + 13;
    assert line[..11] == flags && line[11] == '|' && line[12..|line| - 1] == name;
    forall j | 12 <= j < |line| - 1
      ensures line[j] != '|'
    {
      assert line[j] == name[j - 12];
    }
    forall p | 0 < p
      ensures !MatchesAt(cat, line, p)
    {
      if p + 13 <= |line| {
        assert 12 <= p + 11 < |line| - 1;
      }
    }
    assert LastBar(line) == |line| - 1;
    if FlagsFit(cat, flags) {
      assert line[0..11] == flags;
      assert '|' in line[12..] by { assert line[12..][|line| - 13] == '|'; }
      assert MatchesAt(cat, line, 0);
    } else {
      assert line[0..11] == flags;
      assert !MatchesAt(cat, line, 0);
    }
  }

  /** The flags of a deletion fit only the deleted pattern. */
  lemma DeletionFlags()
    ensures FlagsFit(Deleted, DeletingFlags)
    ensures !FlagsFit(Created, DeletingFlags) && !FlagsFit(Changed, DeletingFlags)
  {
    assert DeletingFlags[0] == '*';
  }

  lemma SampleDeletion()
    ensures Captured(Deleted, "*deleting  |old.txt|") == Some("old.txt")
    ensures Captured(Created, "*deleting  |old.txt|") == None
    ensures Captured(Changed, "*deleting  |old.txt|") == None
  {
    DeletionFlags();
    assert "*deleting  |old.txt|" == DeletingFlags + "|" + "old.txt" + "|";
    WellFormedLine(Deleted, DeletingFlags, "old.txt");
    WellFormedLine(Created, DeletingFlags, "old.txt");
    WellFormedLine(Changed, DeletingFlags, "old.txt");
  }
  /** A transferred new file is created, and not changed: its `+` flags fit
      only the created pattern. */
  lemma SampleCreated()
    ensures Captured(Created, ">f+++++++++|new.txt|") == Some("new.txt")
    ensures Captured(Changed, ">f+++++++++|new.txt|") == None
    ensures Captured(Deleted, ">f+++++++++|new.txt|") == None
  {
    var added := ">f+++++++++";
    assert ">f+++++++++|new.txt|" == added + "|" + "new.txt" + "|";
    assert FlagsFit(Created, added);
    assert !FlagChar(Changed, 2, added[2]) && !FlagChar(Deleted, 0, added[0]);
    WellFormedLine(Created, added, "new.txt");
    WellFormedLine(Changed, added, "new.txt");
    WellFormedLine(Deleted, added, "new.txt");
  }

  /** A file whose modification time changed is changed, and not created:
      its first flag is neither a transfer nor a creation. */
  lemma SampleChanged()
    ensures Captured(Changed, ".f..t......|meta.txt|") == Some("meta.txt")
    ensures Captured(Created, ".f..t......|meta.txt|") == None
    ensures Captured(Deleted, ".f..t......|meta.txt|") == None
  {
    var touched := ".f..t......";
    assert ".f..t......|meta.txt|" == touched + "|" + "meta.txt" + "|";
    assert FlagsFit(Changed, touched);
    assert !FlagChar(Created, 0, touched[0]) && !FlagChar(Deleted, 0, touched[0]);
    WellFormedLine(Changed, touched, "meta.txt");
    WellFormedLine(Created, touched, "meta.txt");
    WellFormedLine(Deleted, touched, "meta.txt");
  }

  /** The patterns overlap: a transferred file whose flags show no attribute
      change is captured both as created and as changed. */
  lemma CreatedAndChangedOverlap(name: string)
    requires '|' !in name
    ensures Captured(Created, ">f........." + "|" + name + "|") == Some(name)
    ensures Captured(Changed, ">f........." + "|" + name + "|") == Some(name)
  {
    var flags := ">f.........";
    assert flags[0] == '>' && flags[1] == 'f';
    assert forall i :: 2 <= i < 11 ==> flags[i] == '.';
    assert FlagsFit(Created, flags);
    assert FlagsFit(Changed, flags);
    WellFormedLine(Created, flags, name);
    WellFormedLine(Changed, flags, name);
  }

  /** The quoted root line rsync prints for an unchanged transfer root. */
  const QuotedRootLine: string := "\".d..t......|./|\"\n"

  function RepeatText(s: string, n: nat): string
  {
    if n == 0 then "" else s + RepeatText(s, n - 1)
  }

  /** A report made only of root lines cleans to the empty text, so it is read
      as "no changes". */
  lemma {:induction false} RootOnlyReportIsEmpty(n: nat)
    ensures Clean(RepeatText(QuotedRootLine, n)) == ""
  {
    UnquoteRootLines(n);
    DropRootLines(n);
  }

  lemma {:induction false} UnquoteRootLines(n: nat)
    ensures Remove(RepeatText(QuotedRootLine, n), "\"") == RepeatText(RootLine, n)
  {
    if n > 0 {
      UnquoteRootLines(n - 1);
      RemoveCharConcat(QuotedRootLine, RepeatText(QuotedRootLine, n - 1), '"');
      UnquoteRootLine();
    }
  }

  lemma UnquoteRootLine()
    ensures Remove(QuotedRootLine, "\"") == RootLine
  {
    var body := RootLine[..|RootLine| - 1];
    UnquoteLine(body);
    assert QuotedRootLine == "\"" + body + "\"\n";
  }

  /** Unquoting a line `"body"` followed by a line break. */
  lemma UnquoteLine(body: string)
    requires '"' !in body
    ensures Remove("\"" + body + "\"\n", "\"") == body + "\n"
  {
    var q, nl := "\"", "\n";
    assert "\"" + body + "\"\n" == q + (body + (q + nl));
    RemoveCharConcat(q, body + (q + nl), '"');
    RemoveCharConcat(body, q + nl, '"');
    RemoveCharConcat(q, nl, '"');
    RemoveAbsentChar(body, '"');
    RemoveAbsentChar(nl, '"');
    assert Remove(q, q) == "" by { assert q <= q && q[1..] == ""; }
  }

  lemma {:induction false} DropRootLines(n: nat)
    ensures Remove(RepeatText(RootLine, n), RootLine) == ""
  {
    if n > 0 {
      DropRootLines(n - 1);
      RemoveLeading(RootLine, RepeatText(RootLine, n - 1));
    }
  }

  lemma RemoveAbsentChar(s: string, c: char)
    requires c !in s
    ensures Remove(s, [c]) == s
  {
    forall i | 0 <= i <= |s|
      ensures !([c] <= s[i..])
    {
      if i < |s| {
        assert s[i..][0] == s[i];
      }
    }
    RemoveAbsent(s, [c]);
  }
}
