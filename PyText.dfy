/** The few Python string and list operations the backup code leans on:
    `str.replace(pat, '')`, `str.split(sep)`, `sep.join(parts)` and
    `sorted` on a list of strings (code-point order). */
module PyText {

  /** `s.replace(pat, '')`: every occurrence of `pat`, found left to right and
      without overlap, is deleted; the text is not rescanned after a deletion.
      An empty `pat` leaves `s` as it is. */
  function Remove(s: string, pat: string): (r: string)
    ensures |r| <= |s|
    ensures forall c :: c in r ==> c in s
    decreases |s|
  {
    if pat == [] || s == [] then s
    else if pat <= s then
      assert forall c :: c in s[|pat|..] ==> c in s;
      Remove(s[|pat|..], pat)
    else
      [s[0]] + Remove(s[1..], pat)
  }

  /** Removing a single character deletes every copy of it. */
  lemma {:induction false} RemoveDropsChar(s: string, c: char)
    ensures c !in Remove(s, [c])
    decreases |s|
  {
    if s != [] {
      RemoveDropsChar(s[1..], c);
      if [c] <= s {
        assert s[|[c]|..] == s[1..];
      }
    }
  }

  /** When `pat` occurs nowhere in `s`, `Remove` is the identity. */
  lemma {:induction false} RemoveAbsent(s: string, pat: string)
    requires forall i :: 0 <= i <= |s| ==> !(pat <= s[i..])
    ensures Remove(s, pat) == s
    decreases |s|
  {
    if s != [] {
      assert !(pat <= s[0..]) && s[0..] == s;
      forall i | 0 <= i <= |s[1..]|
        ensures !(pat <= s[1..][i..])
      {
        assert s[1..][i..] == s[i + 1..];
      }
      RemoveAbsent(s[1..], pat);
    }
  }

  /** Removing one character distributes over concatenation. */
  lemma {:induction false} RemoveCharConcat(a: string, b: string, c: char)
    ensures Remove(a + b, [c]) == Remove(a, [c]) + Remove(b, [c])
    decreases |a|
  {
    if a != [] {
      RemoveCharConcat(a[1..], b, c);
      assert (a + b)[1..] == a[1..] + b;
      assert (a + b)[0] == a[0];
      assert |[c]| == 1;
      if a[0] == c {
        assert [c] <= a + b && [c] <= a;
        assert Remove(a + b, [c]) == Remove(a[1..] + b, [c]);
        assert Remove(a, [c]) == Remove(a[1..], [c]);
      } else {
        assert !([c] <= a + b) && !([c] <= a);
        assert Remove(a + b, [c]) == [a[0]] + Remove(a[1..] + b, [c]);
        assert Remove(a, [c]) == [a[0]] + Remove(a[1..], [c]);
      }
    } else {
      assert a + b == b;
    }
  }

  /** A text that starts with `pat` loses that leading copy. */
  lemma RemoveLeading(pat: string, rest: string)
    requires pat != []
    ensures Remove(pat + rest, pat) == Remove(rest, pat)
  {
    assert pat <= pat + rest;
    assert (pat + rest)[|pat|..] == rest;
  }

  // ---------------------------------------------------------------------
  // split and join

  /** `s.split(sep)`: the pieces between separators, always at least one. */
  function Split(s: string, sep: char): (r: seq<string>)
    ensures |r| >= 1
    ensures forall i :: 0 <= i < |r| ==> sep !in r[i]
    decreases |s|
  {
    if s == [] then [""]
    else
      var rest := Split(s[1..], sep);
      if s[0] == sep then [""] + rest
      else [[s[0]] + rest[0]] + rest[1..]
  }

  /** `sep.join(parts)`. */
  function JoinWith(parts: seq<string>, sep: char): string
  {
    if parts == [] then ""
    else if |parts| == 1 then parts[0]
    else parts[0] + [sep] + JoinWith(parts[1..], sep)
  }

  /** Joining the pieces of a split gives back the text. */
  lemma {:induction false} JoinSplit(s: string, sep: char)
    ensures JoinWith(Split(s, sep), sep) == s
    decreases |s|
  {
    if s != [] {
      JoinSplit(s[1..], sep);
      var rest := Split(s[1..], sep);
      if s[0] == sep {
        assert Split(s, sep) == [""] + rest;
        assert s == [sep] + s[1..];
      } else {
        var r := Split(s, sep);
        assert r == [[s[0]] + rest[0]] + rest[1..];
        if |rest| == 1 {
          assert s == [s[0]] + rest[0];
        } else {
          assert rest == [rest[0]] + rest[1..];
          assert JoinWith(rest, sep) == rest[0] + [sep] + JoinWith(rest[1..], sep);
          assert r[1..] == rest[1..];
        }
      }
    }
  }

  /** A separator-free word in front of a text only lengthens the first piece. */
  lemma {:induction false} SplitPrefix(w: string, t: string, sep: char)
    requires sep !in w
    ensures Split(w + t, sep) == [w + Split(t, sep)[0]] + Split(t, sep)[1..]
    decreases |w|
  {
    if w != [] {
      assert (w + t)[1..] == w[1..] + t;
      assert (w + t)[0] == w[0] && w[0] != sep;
      SplitPrefix(w[1..], t, sep);
      var rest := Split(w[1..] + t, sep);
      assert Split(w + t, sep) == [[w[0]] + rest[0]] + rest[1..];
      var st := Split(t, sep);
      assert rest[0] == w[1..] + st[0];
      assert rest[1..] == st[1..];
      assert [w[0]] + (w[1..] + st[0]) == w + st[0] by {
        assert w == [w[0]] + w[1..];
      }
    } else {
      assert w + t == t;
      var st := Split(t, sep);
      assert w + st[0] == st[0];
      assert st == [st[0]] + st[1..];
    }
  }

  /** Splitting a join of separator-free pieces gives back the pieces. */
  lemma {:induction false} SplitJoin(parts: seq<string>, sep: char)
    requires |parts| >= 1
    requires forall i :: 0 <= i < |parts| ==> sep !in parts[i]
    ensures Split(JoinWith(parts, sep), sep) == parts
    decreases |parts|
  {
    if |parts| == 1 {
      SplitPrefix(parts[0], "", sep);
      assert parts[0] + "" == parts[0];
    } else {
      var t := JoinWith(parts[1..], sep);
      SplitJoin(parts[1..], sep);
      assert JoinWith(parts, sep) == parts[0] + ([sep] + t);
      SplitPrefix(parts[0], [sep] + t, sep);
      assert ([sep] + t)[1..] == t;
      assert Split([sep] + t, sep) == [""] + parts[1..];
      assert parts[0] + "" == parts[0];
    }
  }

  // ---------------------------------------------------------------------
  // sorted()

  /** Python's string order: compare code points from the left; a proper
      prefix comes first. */
  predicate StrLe(a: string, b: string)
    decreases |a|
  {
    |a| == 0 || (|b| > 0 && (a[0] < b[0] || (a[0] == b[0] && StrLe(a[1..], b[1..]))))
  }

  lemma {:induction false} StrLeTotal(a: string, b: string)
    ensures StrLe(a, b) || StrLe(b, a)
    decreases |a|
  {
    if |a| > 0 && |b| > 0 && a[0] == b[0] {
      StrLeTotal(a[1..], b[1..]);
    }
  }

  lemma {:induction false} StrLeAntisymmetric(a: string, b: string)
    requires StrLe(a, b) && StrLe(b, a)
    ensures a == b
    decreases |a|
  {
    if |a| > 0 {
      StrLeAntisymmetric(a[1..], b[1..]);
      assert a == [a[0]] + a[1..] && b == [b[0]] + b[1..];
    }
  }

  lemma {:induction false} StrLeTransitive(a: string, b: string, c: string)
    requires StrLe(a, b) && StrLe(b, c)
    ensures StrLe(a, c)
    decreases |a|
  {
    if |a| > 0 && a[0] == b[0] && b[0] == c[0] {
      StrLeTransitive(a[1..], b[1..], c[1..]);
    }
  }

  predicate IsSorted(s: seq<string>)
  {
    forall i :: 0 < i < |s| ==> StrLe(s[i - 1], s[i])
  }

  /** Insert `x` into a list, in front of the first element it does not
      follow. */
  function Insert(x: string, s: seq<string>): seq<string>
  {
    if s == [] then [x]
    else if StrLe(x, s[0]) then [x] + s
    else [s[0]] + Insert(x, s[1..])
  }

  /** `sorted(xs)` for a list of strings (an insertion sort; Python's sort
      gives the same list, see `SortedUnique`). */
  function Sorted(xs: seq<string>): seq<string>
  {
    if xs == [] then [] else Insert(xs[0], Sorted(xs[1..]))
  }

  /** A sorted list with an element in front that is no greater than its
      head is sorted. */
  lemma ConsSorted(h: string, t: seq<string>)
    requires IsSorted(t)
    requires t != [] ==> StrLe(h, t[0])
    ensures IsSorted([h] + t)
  {
    var r := [h] + t;
    forall i | 0 < i < |r|
      ensures StrLe(r[i - 1], r[i])
    {
      if i > 1 {
        assert r[i - 1] == t[i - 2] && r[i] == t[i - 1];
      }
    }
  }

  lemma TailSorted(s: seq<string>)
    requires IsSorted(s) && s != []
    ensures IsSorted(s[1..])
  {
    forall i | 0 < i < |s[1..]| ensures StrLe(s[1..][i - 1], s[1..][i]) {
      assert s[1..][i - 1] == s[i] && s[1..][i] == s[i + 1];
    }
  }

  /** The head of `Insert(x, s)` is `x` or the old head. */
  lemma InsertHead(x: string, s: seq<string>)
    ensures Insert(x, s)[0] == x || (|s| > 0 && Insert(x, s)[0] == s[0])
  {
  }

  /** Inserting adds exactly `x`. */
  lemma {:induction false} InsertCount(x: string, s: seq<string>)
    ensures multiset(Insert(x, s)) == multiset(s) + multiset{x}
    decreases |s|
  {
    if s != [] && !StrLe(x, s[0]) {
      InsertCount(x, s[1..]);
      assert s == [s[0]] + s[1..];
    }
  }

  /** Inserting into a sorted list keeps it sorted and adds exactly `x`. */
  lemma {:induction false} InsertSorted(x: string, s: seq<string>)
    requires IsSorted(s)
    ensures IsSorted(Insert(x, s))
    ensures multiset(Insert(x, s)) == multiset(s) + multiset{x}
    ensures Insert(x, s)[0] == x || (|s| > 0 && Insert(x, s)[0] == s[0])
    decreases |s|
  {
    InsertCount(x, s);
    InsertHead(x, s);
    if s == [] {
    } else if StrLe(x, s[0]) {
      ConsSorted(x, s);
    } else {
      StrLeTotal(x, s[0]);
      var rest := Insert(x, s[1..]);
      TailSorted(s);
      InsertSorted(x, s[1..]);
      assert StrLe(s[0], rest[0]) by {
        if rest[0] != x {
          assert rest[0] == s[1];
        }
      }
      ConsSorted(s[0], rest);
    }
  }

  /** `Sorted` returns its argument's elements in order. */
  lemma SortedIsSortedPermutation(xs: seq<string>)
    ensures IsSorted(Sorted(xs))
    ensures multiset(Sorted(xs)) == multiset(xs)
  {
    SortedInOrder(xs);
    SortedCount(xs);
  }

  lemma {:induction false} SortedInOrder(xs: seq<string>)
    ensures IsSorted(Sorted(xs))
    decreases |xs|
  {
    if xs != [] {
      SortedInOrder(xs[1..]);
      InsertSorted(xs[0], Sorted(xs[1..]));
    }
  }

  lemma {:induction false} SortedCount(xs: seq<string>)
    ensures multiset(Sorted(xs)) == multiset(xs)
    decreases |xs|
  {
    if xs != [] {
      SortedCount(xs[1..]);
      InsertCount(xs[0], Sorted(xs[1..]));
      assert xs == [xs[0]] + xs[1..];
    }
  }

  /** A sorted list is determined by its elements: `Sorted` is the one
      ordering `sorted` can return. */
  lemma {:induction false} SortedUnique(a: seq<string>, b: seq<string>)
    requires IsSorted(a) && IsSorted(b)
    requires multiset(a) == multiset(b)
    ensures a == b
    decreases |a|
  {
    if a != [] {
      assert a[0] in multiset(b) by { assert a[0] in multiset(a); }
      assert b != [];
      assert b[0] in multiset(a) by { assert b[0] in multiset(b); }
      SortedHeadIsLeast(a, b[0]);
      SortedHeadIsLeast(b, a[0]);
      StrLeAntisymmetric(a[0], b[0]);
      SameTails(a, b);
      TailSorted(a);
      TailSorted(b);
      SortedUnique(a[1..], b[1..]);
    }
  }

  /** Two lists with the same elements and the same head have the same
      elements after the head. */
  lemma SameTails(a: seq<string>, b: seq<string>)
    requires a != [] && b != [] && a[0] == b[0]
    requires multiset(a) == multiset(b)
    ensures multiset(a[1..]) == multiset(b[1..])
  {
    assert a == [a[0]] + a[1..] && b == [b[0]] + b[1..];
    assert multiset(a) == multiset{a[0]} + multiset(a[1..]);
    assert multiset(b) == multiset{b[0]} + multiset(b[1..]);
    assert multiset(a[1..]) == multiset(a) - multiset{a[0]};
    assert multiset(b[1..]) == multiset(b) - multiset{b[0]};
  }

  /** The head of a sorted list is below every element of it. */
  lemma {:induction false} SortedHeadIsLeast(s: seq<string>, x: string)
    requires IsSorted(s) && x in multiset(s)
    ensures StrLe(s[0], x)
    decreases |s|
  {
    if s[0] == x {
      StrLeReflexive(x);
    } else {
      assert s == [s[0]] + s[1..];
      assert x in multiset(s[1..]);
      SortedHeadIsLeast(s[1..], x);
      StrLeTransitive(s[0], s[1], x);
    }
  }

  lemma {:induction false} StrLeReflexive(a: string)
    ensures StrLe(a, a)
    decreases |a|
  {
    if |a| > 0 {
      StrLeReflexive(a[1..]);
    }
  }
}
