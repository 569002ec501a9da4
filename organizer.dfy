/** `split_gallery` as a whole: attach size and date to every file, sort by date, cut the sorted
    files into groups of at most `max_size` bytes, and move every closed group into a subfolder
    named after its first and last dates. */
module Organizer {
  import opened Dates
  import opened Gallery
  import opened DateSort
  import opened Partition
  import opened Subfolders

  /** The records the metadata loop builds, one per file and in the same order; `sizeOf` and
      `mtimeOf` stand for `get_filesize` and `get_mtime`. */
  function Records(files: seq<Path>, sizeOf: Path -> nat, mtimeOf: Path -> DateTime): (r: seq<GalleryFile>)
    ensures |r| == |files|
    ensures forall k :: 0 <= k < |r| ==> r[k] == GalleryFile(files[k], sizeOf(files[k]), mtimeOf(files[k]))
  {
    if files == [] then []
    else
      var f := files[|files| - 1];
      Records(files[..|files| - 1], sizeOf, mtimeOf) + [GalleryFile(f, sizeOf(f), mtimeOf(f))]
  }

  /** The stack the classification loop leaves for records `files`. */
  function Stack(files: seq<GalleryFile>, maxSize: nat): (s: seq<Entry>)
    ensures Shaped(s, |files|)
  {
    SortByDatePermutes(files);
    Classification(SortByDate(files), maxSize)
  }

  /** The sorted records and their stack can be walked by the materialize loop. */
  lemma StackIsWalkable(files: seq<GalleryFile>, maxSize: nat)
    ensures Walkable(SortByDate(files), Stack(files, maxSize))
  {
    SortByDatePermutes(files);
    ShapedIsWalkable(SortByDate(files), Stack(files, maxSize));
  }

  /** The dictionary `split_gallery` returns for records `files`: the walk of the stack of the
      files in date order. Every file is counted once, as moved or as left in place. */
  function Outcome(files: seq<GalleryFile>, maxSize: nat): (r: Stats)
    ensures r.filesMoved + r.filesUnchanged == |files|
  {
    SortByDatePermutes(files);
    StackIsWalkable(files, maxSize);
    Walk(SortByDate(files), Stack(files, maxSize))
  }

  /** The `move_file` calls `split_gallery` makes for records `files`, in order. */
  function MoveCalls(files: seq<GalleryFile>, maxSize: nat): seq<Move> {
    StackIsWalkable(files, maxSize);
    WalkMoves(SortByDate(files), Stack(files, maxSize))
  }

  /** Every file is either moved or left in place; the ones left are the trailing group, which
      is never empty when there are files; one subfolder name and one size per closed pair,
      and one `move_file` call per moved file. */
  lemma OutcomeCounts(files: seq<GalleryFile>, maxSize: nat)
    ensures var r := Outcome(files, maxSize); var s := Stack(files, maxSize);
      && r.filesMoved + r.filesUnchanged == |files|
      && r.filesMoved == OpenStart(s)
      && (|files| > 0 ==> r.filesUnchanged >= 1)
      && |r.created| == |r.sizes| == |s| - 1
      && |MoveCalls(files, maxSize)| == r.filesMoved
  {
    var g := SortByDate(files);
    var s := Stack(files, maxSize);
    SortByDatePermutes(files);
    StackIsWalkable(files, maxSize);
    WalkCounts(g, s);
  }

  /** No subfolder is created exactly when all the files together fit the limit; then nothing
      is moved either. */
  lemma NoSubfolderIffAllFit(files: seq<GalleryFile>, maxSize: nat)
    ensures Outcome(files, maxSize).created == [] <==> TotalSize(files) <= maxSize
    ensures TotalSize(files) <= maxSize ==>
      Outcome(files, maxSize).filesMoved == 0 && MoveCalls(files, maxSize) == []
  {
    var g := SortByDate(files);
    SortByDatePermutes(files);
    SortByDateKeepsTotal(files);
    NoCutIffFits(g, maxSize);
    OutcomeCounts(files, maxSize);
  }

  /** Subfolder `k` is named after the dates of the first and last file of closed pair `k` of
      the sorted files, and its recorded size is their total. */
  lemma SubfolderAt(files: seq<GalleryFile>, maxSize: nat, k: nat)
    requires k < |Outcome(files, maxSize).created|
    ensures var r := Outcome(files, maxSize); var g := SortByDate(files); var e := Stack(files, maxSize)[k];
      && InBounds(g, e)
      && r.created[k] == SubfolderName(g[e.start].date, PyIndex(g, e.end).date)
      && r.sizes[k] == TotalSize(g[e.start..e.end + 1])
  {
    StackIsWalkable(files, maxSize);
    WalkCounts(SortByDate(files), Stack(files, maxSize));
    WalkName(SortByDate(files), Stack(files, maxSize), k);
    WalkSize(SortByDate(files), Stack(files, maxSize), k);
  }

  /** A subfolder over the limit holds a single file, and adding the next file to any subfolder
      would overflow it; `g` is the files in date order, whose walk is `Outcome`. */
  lemma SubfolderBounds(g: seq<GalleryFile>, maxSize: nat, k: nat)
    requires k < |Classification(g, maxSize)| - 1
    ensures Walkable(g, Classification(g, maxSize))
    ensures var s := Classification(g, maxSize); var e := s[k];
      && 0 <= e.start <= e.end + 1 && e.end + 2 <= |g|
      && (Walk(g, s).sizes[k] > maxSize ==> e.end == e.start)
      && TotalSize(g[e.start..e.end + 2]) > maxSize
  {
    ShapedIsWalkable(g, Classification(g, maxSize));
    WalkSize(g, Classification(g, maxSize), k);
    ClosedRangeBounds(g, maxSize, k);
  }

  /** File `p` of the sorted order, when `p` is below `files_moved`, is the `p`-th file moved,
      and it goes into the subfolder of a closed pair that holds it. */
  lemma MoveAt(files: seq<GalleryFile>, maxSize: nat, p: nat)
    requires p < Outcome(files, maxSize).filesMoved
    ensures var r := Outcome(files, maxSize); var g := SortByDate(files); var s := Stack(files, maxSize);
      && p < |MoveCalls(files, maxSize)| && p < |g|
      && exists k :: 0 <= k < |r.created| && s[k].start <= p <= s[k].end
           && MoveCalls(files, maxSize)[p] == Move(g[p].path, r.created[k])
  {
    var g := SortByDate(files);
    var s := Stack(files, maxSize);
    SortByDatePermutes(files);
    OutcomeCounts(files, maxSize);
    StackIsWalkable(files, maxSize);
    CoveredExactlyOnce(s, |g|, p);
    var k :| 0 <= k < |s| && Holds(s, k, p, |g|);
    if k == |s| - 1 {
      assert false;
    }
    WalkMoveAt(g, s, k, p);
  }

  /** The subfolder sizes add up to the bytes of the moved files, which are the first
      `files_moved` files in date order. */
  lemma SizesAddUpToMoved(files: seq<GalleryFile>, maxSize: nat)
    ensures var r := Outcome(files, maxSize); var g := SortByDate(files);
      r.filesMoved <= |g| && SizeSum(r.sizes) == TotalSize(g[..r.filesMoved])
  {
    var g := SortByDate(files);
    var s := Stack(files, maxSize);
    StackIsWalkable(files, maxSize);
    WalkCounts(g, s);
    SizesAddUp(g, s, |s| - 1);
  }

  /** The files left in place are the last ones in date order; together they fit the limit
      unless a single file is left. */
  lemma UnmovedFit(files: seq<GalleryFile>, maxSize: nat)
    ensures var r := Outcome(files, maxSize); var g := SortByDate(files);
      && r.filesMoved <= |g|
      && (r.filesUnchanged >= 2 || r.created == [] ==> TotalSize(g[r.filesMoved..]) <= maxSize)
  {
    var g := SortByDate(files);
    SortByDatePermutes(files);
    OutcomeCounts(files, maxSize);
    OpenGroupFits(g, maxSize);
  }

  /** When the earliest file alone is over the limit, the first subfolder is the empty range
      `(0, -1)`: its recorded size is 0, no file is moved into it, and its name runs from the
      earliest file's date to the latest file's (Python's index `-1`). In every other case,
      and for every later subfolder, the range holds at least one file. */
  lemma EmptyFirstSubfolder(files: seq<GalleryFile>, maxSize: nat)
    ensures var r := Outcome(files, maxSize); var g := SortByDate(files); var s := Stack(files, maxSize);
      && (|files| > 0 && g[0].size > maxSize ==>
            && r.created != [] && s[0] == Closed(0, -1) && r.sizes[0] == 0
            && r.created[0] == SubfolderName(g[0].date, g[|g| - 1].date))
      && (forall k :: 0 <= k < |r.created| && !(k == 0 && |files| > 0 && g[0].size > maxSize) ==>
            s[k].start <= s[k].end)
  {
    var g := SortByDate(files);
    var s := Stack(files, maxSize);
    SortByDatePermutes(files);
    OutcomeCounts(files, maxSize);
    EmptyPairIffFirstOversized(g, maxSize);
    if |files| > 0 && g[0].size > maxSize {
      SubfolderAt(files, maxSize, 0);
    }
  }

  /** The moved files, in the order of the `move_file` calls, are the earliest files in date
      order, each moved once; and the date order is a stable sort of the input. */
  lemma MovesFollowDateOrder(files: seq<GalleryFile>, maxSize: nat)
    ensures var moves := MoveCalls(files, maxSize); var g := SortByDate(files);
      && |moves| <= |g|
      && (forall p :: 0 <= p < |moves| ==> moves[p].path == g[p].path)
      && multiset(g) == multiset(files) && SortedByDate(g)
  {
    var g := SortByDate(files);
    var moves := MoveCalls(files, maxSize);
    SortByDatePermutes(files);
    SortByDateSorts(files);
    OutcomeCounts(files, maxSize);
    forall p | 0 <= p < |moves|
      ensures moves[p].path == g[p].path
    {
      MoveAt(files, maxSize, p);
    }
  }

  const GiB: nat := 1024 * 1024 * 1024

  /** Files of 5, 5, 5 and 1 GiB in date order under the default 15 GiB limit: the fourth file
      overflows, so the first three form the one closed pair and the fourth opens the trailing
      group. */
  lemma ExampleStack(a: GalleryFile, b: GalleryFile, c: GalleryFile, d: GalleryFile)
    requires a.size == 5 * GiB && b.size == 5 * GiB && c.size == 5 * GiB && d.size == 1 * GiB
    requires !Less(b.date, a.date) && !Less(c.date, b.date) && !Less(d.date, c.date)
    ensures SortByDate([a, b, c, d]) == [a, b, c, d]
    ensures Stack([a, b, c, d], DefaultMaxSize) == [Closed(0, 2), Open(3)]
  {
    var files := [a, b, c, d];
    NotLessTransitive(a.date, b.date, c.date);
    NotLessTransitive(a.date, c.date, d.date);
    NotLessTransitive(b.date, c.date, d.date);
    SortByDateKeepsSorted(files);
    assert ScanPrefix(files, 1, DefaultMaxSize) == Scan([Open(0)], 5 * GiB);
    assert ScanPrefix(files, 2, DefaultMaxSize) == Scan([Open(0)], 10 * GiB);
    assert ScanPrefix(files, 3, DefaultMaxSize) == Scan([Open(0)], 15 * GiB);
    assert ScanPrefix(files, 4, DefaultMaxSize) == Scan([Closed(0, 2), Open(3)], 1 * GiB);
  }

  /** The first three files go, in date order, into one subfolder of 15 GiB named after the
      first and third dates, and the fourth stays where it is. */
  lemma ExampleThreeMovedOneKept(a: GalleryFile, b: GalleryFile, c: GalleryFile, d: GalleryFile)
    requires a.size == 5 * GiB && b.size == 5 * GiB && c.size == 5 * GiB && d.size == 1 * GiB
    requires !Less(b.date, a.date) && !Less(c.date, b.date) && !Less(d.date, c.date)
    ensures var name := SubfolderName(a.date, c.date);
      && Outcome([a, b, c, d], DefaultMaxSize) == Stats([name], [15 * GiB], 3, 1)
      && MoveCalls([a, b, c, d], DefaultMaxSize) == [Move(a.path, name), Move(b.path, name), Move(c.path, name)]
  {
    var files := [a, b, c, d];
    var name := SubfolderName(a.date, c.date);
    ExampleStack(a, b, c, d);
    var s := Stack(files, DefaultMaxSize);
    assert RangeName(files, s[0]) == name;
    assert TotalSize(files[0..1]) == 5 * GiB by {
      assert files[0..1][..0] == [];
    }
    assert TotalSize(files[0..2]) == 10 * GiB by {
      assert files[0..2][..1] == files[0..1];
    }
    assert TotalSize(files[0..3]) == 15 * GiB by {
      assert files[0..3][..2] == files[0..2];
    }
    assert Names(files, s, 1) == [name];
    assert Sizes(files, s, 1) == [15 * GiB];
    assert MovedCount(s, 1) == 3;
    assert MoveLog(files, s, 1, [name]) == RangeMoves(files, 0, 2, name);
  }

  /** A single file over the limit: the first step already overflows, so the stack becomes
      `[(0, -1), 0]`. */
  lemma ExampleOversizedStack(f: GalleryFile)
    requires f.size > DefaultMaxSize
    ensures SortByDate([f]) == [f]
    ensures Stack([f], DefaultMaxSize) == [Closed(0, -1), Open(0)]
  {
    SortByDateKeepsSorted([f]);
    assert ScanPrefix([f], 1, DefaultMaxSize) == Scan([Closed(0, -1), Open(0)], f.size);
  }

  /** For that single file one subfolder is reported, named after the file's own date twice,
      of size 0 and with nothing moved into it, and the file itself stays where it is. */
  lemma ExampleOneOversizedFile(f: GalleryFile)
    requires f.size > DefaultMaxSize
    ensures Outcome([f], DefaultMaxSize) == Stats([SubfolderName(f.date, f.date)], [0], 0, 1)
    ensures MoveCalls([f], DefaultMaxSize) == []
  {
    var files := [f];
    ExampleOversizedStack(f);
    var s := [Closed(0, -1), Open(0)];
    var name := SubfolderName(f.date, f.date);
    assert RangeName(files, s[0]) == name;
    assert RangeSize(files, s[0]) == 0 by {
      assert files[0..0] == [];
    }
    assert Names(files, s, 1) == [name];
    assert Sizes(files, s, 1) == [0];
    assert MovedCount(s, 1) == 0;
    assert MoveLog(files, s, 1, [name]) == [] by {
      assert RangeMoves(files, 0, -1, name) == [];
    }
  }

  /** An oversized first file followed by a small one: the first step records `(0, -1)`, and
      the second step closes the oversized file alone as `(0, 0)`, so it is moved. */
  lemma ExampleOversizedFirst(a: GalleryFile, b: GalleryFile)
    requires a.size == 20 * GiB && b.size == 1 && !Less(b.date, a.date)
    ensures Stack([a, b], DefaultMaxSize) == [Closed(0, -1), Closed(0, 0), Open(1)]
    ensures var r := Outcome([a, b], DefaultMaxSize); |r.created| == 2 && r.filesMoved == 1 && r.filesUnchanged == 1
  {
    var files := [a, b];
    SortByDateKeepsSorted(files);
    assert ScanPrefix(files, 1, DefaultMaxSize) == Scan([Closed(0, -1), Open(0)], 20 * GiB);
    assert ScanPrefix(files, 2, DefaultMaxSize) == Scan([Closed(0, -1), Closed(0, 0), Open(1)], 1);
    OutcomeCounts(files, DefaultMaxSize);
  }

  /** An oversized last file: it overflows the group before it, opens the trailing group on its
      own, and is never moved. */
  lemma ExampleOversizedLast(a: GalleryFile, b: GalleryFile)
    requires a.size == 1 && b.size == 20 * GiB && !Less(b.date, a.date)
    ensures Stack([a, b], DefaultMaxSize) == [Closed(0, 0), Open(1)]
    ensures var r := Outcome([a, b], DefaultMaxSize); |r.created| == 1 && r.filesMoved == 1 && r.filesUnchanged == 1
  {
    var files := [a, b];
    SortByDateKeepsSorted(files);
    assert ScanPrefix(files, 1, DefaultMaxSize) == Scan([Open(0)], 1);
    assert ScanPrefix(files, 2, DefaultMaxSize) == Scan([Closed(0, 0), Open(1)], 20 * GiB);
    OutcomeCounts(files, DefaultMaxSize);
  }

  /** The metadata loop at gso.py:67-74: one record per file, in input order. */
  method AttachMetadata(files: seq<Path>, sizeOf: Path -> nat, mtimeOf: Path -> DateTime)
    returns (galleryFiles: seq<GalleryFile>)
    ensures galleryFiles == Records(files, sizeOf, mtimeOf)
  {
    galleryFiles := [];
    for i := 0 to |files|
      invariant galleryFiles == Records(files[..i], sizeOf, mtimeOf)
    {
      var file := files[i];
      galleryFiles := galleryFiles + [GalleryFile(file, sizeOf(file), mtimeOf(file))];
      assert files[..i + 1][..i] == files[..i];
    }
    assert files[..|files|] == files;
  }

  /** `split_gallery(files)` with `max_size` as a parameter (the script fixes `max_size` to
      `DefaultMaxSize` at gso.py:81): build the records, sort them in place by date, classify,
      then move. */
  method SplitGallery(files: seq<Path>, sizeOf: Path -> nat, mtimeOf: Path -> DateTime, maxSize: nat)
    returns (stats: Stats, moves: seq<Move>)
    ensures stats == Outcome(Records(files, sizeOf, mtimeOf), maxSize)
    ensures moves == MoveCalls(Records(files, sizeOf, mtimeOf), maxSize)
  {
    var records := AttachMetadata(files, sizeOf, mtimeOf);
    var galleryFiles := new GalleryFile[|records|](k requires 0 <= k < |records| => records[k]);
    assert galleryFiles[..] == records;
    SortInPlace(galleryFiles);
    var g := galleryFiles[..];
    var subfolders := Classify(g, maxSize);
    ShapedIsWalkable(g, subfolders);
    stats, moves := Materialize(g, subfolders);
  }
}
