/** `gallery_files.sort(key=lambda f: f["date"])`: a stable in-place sort by modification date. */
module DateSort {
  import opened Dates
  import opened Gallery

  /** Ascending by date: no file is dated strictly before a file to its left. */
  predicate SortedByDate(s: seq<GalleryFile>) {
    forall i, j :: 0 <= i < j < |s| ==> !Less(s[j].date, s[i].date)
  }

  /** The files of `s` dated exactly `d`, in their order in `s`. */
  function WithDate(s: seq<GalleryFile>, d: DateTime): seq<GalleryFile> {
    if s == [] then []
    else WithDate(s[..|s| - 1], d) + (if s[|s| - 1].date == d then [s[|s| - 1]] else [])
  }

  /** Places `x` after every file of `s` that is not dated after it. */
  function Insert(s: seq<GalleryFile>, x: GalleryFile): seq<GalleryFile> {
    if s == [] || !Less(x.date, s[|s| - 1].date) then s + [x]
    else Insert(s[..|s| - 1], x) + [s[|s| - 1]]
  }

  /** The stable sort by date, as insertion of each file in turn into the sorted prefix. */
  function SortByDate(s: seq<GalleryFile>): seq<GalleryFile> {
    if s == [] then [] else Insert(SortByDate(s[..|s| - 1]), s[|s| - 1])
  }

  lemma {:induction false} InsertPermutes(s: seq<GalleryFile>, x: GalleryFile)
    ensures multiset(Insert(s, x)) == multiset(s) + multiset{x}
  {
    if s != [] && Less(x.date, s[|s| - 1].date) {
      InsertPermutes(s[..|s| - 1], x);
      assert s == s[..|s| - 1] + [s[|s| - 1]];
    }
  }

  lemma {:induction false} InsertKeepsSorted(s: seq<GalleryFile>, x: GalleryFile)
    requires SortedByDate(s)
    ensures SortedByDate(Insert(s, x))
  {
    if s == [] || !Less(x.date, s[|s| - 1].date) {
      forall i | 0 <= i < |s|
        ensures !Less(x.date, s[i].date)
      {
        if i < |s| - 1 {
          NotLessTransitive(s[i].date, s[|s| - 1].date, x.date);
        }
      }
    } else {
      var init, last := s[..|s| - 1], s[|s| - 1];
      InsertKeepsSorted(init, x);
      InsertPermutes(init, x);
      var r := Insert(init, x);
      forall i | 0 <= i < |r|
        ensures !Less(last.date, r[i].date)
      {
        assert r[i] in multiset(r);
        if r[i] != x {
          assert r[i] in multiset(init);
          var k :| 0 <= k < |init| && init[k] == r[i];
          assert s[k] == r[i];
        } else {
          LessIsStrictTotalOrder(x.date, last.date, last.date);
        }
      }
    }
  }

  lemma {:induction false} WithDateAppend(a: seq<GalleryFile>, b: seq<GalleryFile>, d: DateTime)
    ensures WithDate(a + b, d) == WithDate(a, d) + WithDate(b, d)
  {
    if b != [] {
      assert (a + b)[..|a + b| - 1] == a + b[..|b| - 1];
      WithDateAppend(a, b[..|b| - 1], d);
    } else {
      assert a + b == a;
    }
  }

  /** Insertion only ever passes over files dated strictly after `x`, so files sharing a
      date with `x` stay before it. */
  lemma {:induction false} InsertIsStable(s: seq<GalleryFile>, x: GalleryFile, d: DateTime)
    ensures WithDate(Insert(s, x), d) == WithDate(s, d) + WithDate([x], d)
  {
    if s == [] || !Less(x.date, s[|s| - 1].date) {
      assert Insert(s, x) == s + [x];
      WithDateAppend(s, [x], d);
    } else {
      var init, last := s[..|s| - 1], s[|s| - 1];
      var before, mine, theirs := WithDate(init, d), WithDate([x], d), WithDate([last], d);
      InsertIsStable(init, x, d);
      InsertPassesLast(s, x, d);
      assert WithDate(Insert(s, x), d) == before + mine + theirs;
      WithDateOne(x, d);
      WithDateOne(last, d);
      assert WithDate(s, d) == before + theirs;
      if x.date == d {
        LessIsStrictTotalOrder(x.date, last.date, last.date);
        assert before + mine + theirs == before + mine;
      } else {
        assert before + mine + theirs == before + theirs;
      }
    }
  }

  /** Inserting before the last file keeps that file's date filter at the end. */
  lemma InsertPassesLast(s: seq<GalleryFile>, x: GalleryFile, d: DateTime)
    requires s != [] && Less(x.date, s[|s| - 1].date)
    ensures WithDate(Insert(s, x), d) == WithDate(Insert(s[..|s| - 1], x), d) + WithDate([s[|s| - 1]], d)
  {
    assert Insert(s, x) == Insert(s[..|s| - 1], x) + [s[|s| - 1]];
    WithDateAppend(Insert(s[..|s| - 1], x), [s[|s| - 1]], d);
  }

  lemma WithDateOne(x: GalleryFile, d: DateTime)
    ensures WithDate([x], d) == if x.date == d then [x] else []
  {
    assert [x][..0] == [];
  }

  /** The sort only reorders: the result is a permutation of its input. */
  lemma {:induction false} SortByDatePermutes(s: seq<GalleryFile>)
    ensures multiset(SortByDate(s)) == multiset(s)
    ensures |SortByDate(s)| == |s|
  {
    if s != [] {
      SortByDatePermutes(s[..|s| - 1]);
      InsertPermutes(SortByDate(s[..|s| - 1]), s[|s| - 1]);
      assert s == s[..|s| - 1] + [s[|s| - 1]];
    }
    assert |multiset(SortByDate(s))| == |multiset(s)|;
  }

  /** The result is in ascending date order. */
  lemma {:induction false} SortByDateSorts(s: seq<GalleryFile>)
    ensures SortedByDate(SortByDate(s))
  {
    if s != [] {
      SortByDateSorts(s[..|s| - 1]);
      InsertKeepsSorted(SortByDate(s[..|s| - 1]), s[|s| - 1]);
    }
  }

  /** Stability: the files sharing any one date keep their input order. */
  lemma {:induction false} SortByDateIsStable(s: seq<GalleryFile>, d: DateTime)
    ensures WithDate(SortByDate(s), d) == WithDate(s, d)
  {
    if s != [] {
      var init, last := s[..|s| - 1], s[|s| - 1];
      SortByDateIsStable(init, d);
      InsertIsStable(SortByDate(init), last, d);
      WithDateAppend(init, [last], d);
      assert init + [last] == s;
    }
  }

  /** Sorting input that is already in date order leaves it as it is. */
  lemma {:induction false} SortByDateKeepsSorted(s: seq<GalleryFile>)
    requires SortedByDate(s)
    ensures SortByDate(s) == s
  {
    if s != [] {
      var init := s[..|s| - 1];
      assert SortedByDate(init);
      SortByDateKeepsSorted(init);
      assert s == init + [s[|s| - 1]];
    }
  }

  /** Reordering does not change the byte total. */
  lemma {:induction false} SortByDateKeepsTotal(s: seq<GalleryFile>)
    ensures TotalSize(SortByDate(s)) == TotalSize(s)
  {
    if s != [] {
      SortByDateKeepsTotal(s[..|s| - 1]);
      InsertKeepsTotal(SortByDate(s[..|s| - 1]), s[|s| - 1]);
    }
  }

  lemma {:induction false} InsertKeepsTotal(s: seq<GalleryFile>, x: GalleryFile)
    ensures TotalSize(Insert(s, x)) == TotalSize(s) + x.size
  {
    if s != [] && Less(x.date, s[|s| - 1].date) {
      var init, last := s[..|s| - 1], s[|s| - 1];
      assert Insert(s, x) == Insert(init, x) + [last];
      InsertKeepsTotal(init, x);
      TotalSizeAppend(Insert(init, x), [last]);
      TotalSizeAppend(init, [last]);
      assert init + [last] == s;
      assert [last][..0] == [];
    } else {
      assert Insert(s, x) == s + [x];
      TotalSizeAppend(s, [x]);
      assert [x][..0] == [];
    }
  }

  /** Python's `list.sort` on the date key, done in place by insertion: each file in turn is
      inserted into the sorted prefix to its left. */
  method SortInPlace(a: array<GalleryFile>)
    modifies a
    ensures a[..] == SortByDate(old(a[..]))
  {
    ghost var input := a[..];
    var i := 0;
    while i < a.Length
      invariant 0 <= i <= a.Length
      invariant a[..i] == SortByDate(input[..i])
      invariant a[i..] == input[i..]
    {
      InsertAt(a, i);
      assert input[..i + 1][..i] == input[..i];
      i := i + 1;
    }
    assert input[..a.Length] == input;
  }

  /** Moves `a[i]` left past the files of the sorted prefix `a[..i]` dated strictly after it,
      never past an equal date. */
  method InsertAt(a: array<GalleryFile>, i: nat)
    requires i < a.Length
    modifies a
    ensures a[..i + 1] == Insert(old(a[..i]), old(a[i]))
    ensures a[i + 1..] == old(a[i + 1..])
  {
    ghost var input := a[..];
    var x := a[i];
    var j := i;
    // a[j] is the hole: the files dated after x have moved one place right, past it
    while j > 0 && Less(x.date, a[j - 1].date)
      invariant 0 <= j <= i
      invariant a[..] == Holed(input, j, i)
      invariant Insert(input[..i], x) == Insert(input[..j], x) + input[j..i]
    {
      ShiftIntoHole(input, j, i);
      InsertPassesOver(input, j, i, x);
      a[j] := a[j - 1];
      j := j - 1;
    }
    FillHole(input, j, i, x);
    a[j] := x;
  }

  /** The array during insertion: the hole at `j`, the files `j..i` moved one place right. */
  ghost function Holed(input: seq<GalleryFile>, j: nat, i: nat): seq<GalleryFile>
    requires j <= i < |input|
  {
    input[..j + 1] + input[j..i] + input[i + 1..]
  }

  lemma ShiftIntoHole(input: seq<GalleryFile>, j: nat, i: nat)
    requires 0 < j <= i < |input|
    ensures Holed(input, j, i)[j - 1] == input[j - 1]
    ensures Holed(input, j, i)[j := input[j - 1]] == Holed(input, j - 1, i)
  {
    var h, h' := Holed(input, j, i), Holed(input, j - 1, i);
    forall p | 0 <= p < |input|
      ensures h[j := input[j - 1]][p] == h'[p]
    {
    }
  }

  lemma InsertPassesOver(input: seq<GalleryFile>, j: nat, i: nat, x: GalleryFile)
    requires 0 < j <= i <= |input| && Less(x.date, input[j - 1].date)
    ensures Insert(input[..j], x) + input[j..i] == Insert(input[..j - 1], x) + input[j - 1..i]
  {
    assert input[..j][..j - 1] == input[..j - 1];
    assert input[j - 1..i] == [input[j - 1]] + input[j..i];
  }

  lemma FillHole(input: seq<GalleryFile>, j: nat, i: nat, x: GalleryFile)
    requires j <= i < |input|
    ensures Holed(input, j, i)[j := x][..i + 1] == input[..j] + [x] + input[j..i]
    ensures Holed(input, j, i)[j := x][i + 1..] == input[i + 1..]
  {
  }
}
