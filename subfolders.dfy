/** The second loop of `split_gallery`: every closed pair of the stack becomes a subfolder named
    after its first and last file's dates; its files are moved there and counted. */
module Subfolders {
  import opened Dates
  import opened Gallery
  import opened Partition

  /** One `move_file(file, subfolder_name)` call: the file moved and the subfolder it goes to. */
  datatype Move = Move(path: Path, folder: string)

  /** The dictionary `split_gallery` returns: `subfolders_created`, `subfolders_size`,
      `files_moved` and `files_unchanged`. */
  datatype Stats = Stats(created: seq<string>, sizes: seq<nat>, filesMoved: nat, filesUnchanged: nat)

  /** `f"{format_date(first)}-{format_date(last)}"`. */
  function SubfolderName(first: DateTime, last: DateTime): string {
    FormatDate(first) + "-" + FormatDate(last)
  }

  /** A subfolder name is two `dd.mm.yyyy` dates around a dash, and both calendar days can be
      read back from it. */
  lemma SubfolderNameRoundTrip(first: DateTime, last: DateTime)
    ensures var name := SubfolderName(first, last);
      && |name| == 21 && name[10] == '-'
      && IsFormattedDate(name[..10]) && IsFormattedDate(name[11..])
      && ParseDate(name[..10]) == (first.day as int, first.month as int, first.year as int)
      && ParseDate(name[11..]) == (last.day as int, last.month as int, last.year as int)
  {
    FormatDateRoundTrip(first);
    FormatDateRoundTrip(last);
    var name := SubfolderName(first, last);
    assert name[..10] == FormatDate(first);
    assert name[11..] == FormatDate(last);
  }

  /** A range from 1 January 2024 to 10 January 2024, at any times of day, is named
      `01.01.2024-10.01.2024`. */
  lemma SubfolderNameExample(first: DateTime, last: DateTime)
    requires first.day == 1 && first.month == 1 && first.year == 2024
    requires last.day == 10 && last.month == 1 && last.year == 2024
    ensures SubfolderName(first, last) == "01.01.2024-10.01.2024"
  {
    assert DigitChar(0) == '0' && DigitChar(1) == '1' && DigitChar(2) == '2' && DigitChar(4) == '4';
    assert FormatDate(first) == "01.01.2024" by {
      FormatDateChars(first);
    }
    assert FormatDate(last) == "10.01.2024" by {
      FormatDateChars(last);
    }
  }

  /** `gallery_files[j]`, with Python's negative indexing: `-1` is the last file. */
  function PyIndex(g: seq<GalleryFile>, j: int): GalleryFile
    requires -|g| <= j < |g|
  {
    if j < 0 then g[|g| + j] else g[j]
  }

  /** Bounds every closed pair of a well-shaped stack over `g` satisfies. */
  predicate InBounds(g: seq<GalleryFile>, e: Entry) {
    e.Closed? && 0 <= e.start <= e.end + 1 && e.end + 2 <= |g|
  }

  /** The name the script gives the subfolder of a closed pair; for `(0, -1)` the last date is
      that of the last file. */
  function RangeName(g: seq<GalleryFile>, e: Entry): string
    requires InBounds(g, e)
  {
    SubfolderName(g[e.start].date, PyIndex(g, e.end).date)
  }

  /** The bytes of the files `start..end` of a closed pair; 0 for `(0, -1)`. */
  function RangeSize(g: seq<GalleryFile>, e: Entry): nat
    requires InBounds(g, e)
  {
    TotalSize(g[e.start..e.end + 1])
  }

  /** How many files `range(start, end + 1)` visits. */
  function RangeLength(e: Entry): int
    requires e.Closed?
  {
    e.end + 1 - e.start
  }

  /** The first `m` entries of `s` are closed pairs within bounds. */
  predicate ClosedBefore(g: seq<GalleryFile>, s: seq<Entry>, m: nat) {
    m <= |s| && forall k :: 0 <= k < m ==> InBounds(g, s[k])
  }

  /** `subfolders_created` after the first `m` pairs of `s`. */
  function Names(g: seq<GalleryFile>, s: seq<Entry>, m: nat): (r: seq<string>)
    requires ClosedBefore(g, s, m)
    ensures |r| == m
  {
    if m == 0 then [] else Names(g, s, m - 1) + [RangeName(g, s[m - 1])]
  }

  /** `subfolders_size` after the first `m` pairs of `s`. */
  function Sizes(g: seq<GalleryFile>, s: seq<Entry>, m: nat): (r: seq<nat>)
    requires ClosedBefore(g, s, m)
    ensures |r| == m
  {
    if m == 0 then [] else Sizes(g, s, m - 1) + [RangeSize(g, s[m - 1])]
  }

  /** The `move_file` calls for the files `i..j`, all into subfolder `name`. */
  function RangeMoves(g: seq<GalleryFile>, i: int, j: int, name: string): seq<Move>
    requires 0 <= i <= j + 1 <= |g|
  {
    seq(j + 1 - i, p requires 0 <= p < j + 1 - i => Move(g[i + p].path, name))
  }

  /** Every `move_file` call made for the first `m` pairs of `s`, in order, the files of pair
      `k` going into the subfolder `names[k]`. */
  function MoveLog(g: seq<GalleryFile>, s: seq<Entry>, m: nat, names: seq<string>): seq<Move>
    requires ClosedBefore(g, s, m) && m <= |names|
  {
    if m == 0 then []
    else MoveLog(g, s, m - 1, names) + RangeMoves(g, s[m - 1].start, s[m - 1].end, names[m - 1])
  }

  /** `files_moved` after the first `m` pairs of `s`: the files they hold together. */
  function MovedCount(s: seq<Entry>, m: nat): int
    requires m <= |s| && forall k :: 0 <= k < m ==> s[k].Closed?
  {
    if m == 0 then 0 else MovedCount(s, m - 1) + RangeLength(s[m - 1])
  }

  function SizeSum(sizes: seq<nat>): nat {
    if sizes == [] then 0 else SizeSum(sizes[..|sizes| - 1]) + sizes[|sizes| - 1]
  }

  /** What the materialize loop relies on: closed pairs within bounds up to a final bare start,
      and each entry starting where the pairs before it leave off. */
  predicate Walkable(g: seq<GalleryFile>, s: seq<Entry>) {
    && |s| > 0 && s[|s| - 1].Open? && s[|s| - 1].start <= |g|
    && ClosedBefore(g, s, |s| - 1)
    && forall k {:trigger MovedCount(s, k)} :: 0 <= k < |s| ==> MovedCount(s, k) == s[k].start
  }

  /** The dictionary the materialize loop leaves: a name and a size per closed pair, the files
      moved and the files left. */
  function Walk(g: seq<GalleryFile>, s: seq<Entry>): Stats
    requires Walkable(g, s)
  {
    var m := |s| - 1;
    assert MovedCount(s, m) == s[m].start;
    Stats(Names(g, s, m), Sizes(g, s, m), MovedCount(s, m), |g| - MovedCount(s, m))
  }

  /** The `move_file` calls the materialize loop makes, each pair's files going into that
      pair's subfolder. */
  function WalkMoves(g: seq<GalleryFile>, s: seq<Entry>): seq<Move>
    requires Walkable(g, s)
  {
    MoveLog(g, s, |s| - 1, Names(g, s, |s| - 1))
  }

  /** Entry `k` of `subfolders_created` is the name of closed pair `k`. */
  lemma {:induction false} NameAt(g: seq<GalleryFile>, s: seq<Entry>, m: nat, k: nat)
    requires ClosedBefore(g, s, m) && k < m
    ensures Names(g, s, m)[k] == RangeName(g, s[k])
  {
    if k < m - 1 {
      NameAt(g, s, m - 1, k);
    }
  }

  /** Entry `k` of `subfolders_size` is the size of closed pair `k`. */
  lemma {:induction false} SizeAt(g: seq<GalleryFile>, s: seq<Entry>, m: nat, k: nat)
    requires ClosedBefore(g, s, m) && k < m
    ensures Sizes(g, s, m)[k] == RangeSize(g, s[k])
  {
    if k < m - 1 {
      SizeAt(g, s, m - 1, k);
    }
  }

  /** The closed pairs before entry `m` of a well-shaped stack hold exactly the files below
      entry `m`'s start: contiguity means nothing is skipped and nothing counted twice. */
  lemma {:induction false} MovedCountIsStart(s: seq<Entry>, n: int, m: nat)
    requires Shaped(s, n) && m < |s|
    ensures forall k :: 0 <= k < m ==> s[k].Closed?
    ensures MovedCount(s, m) == s[m].start
  {
    if m > 0 {
      MovedCountIsStart(s, n, m - 1);
    }
  }

  /** The classification loop only leaves stacks the materialize loop can walk. */
  lemma ShapedIsWalkable(g: seq<GalleryFile>, s: seq<Entry>)
    requires Shaped(s, |g|)
    ensures Walkable(g, s)
  {
    assert ClosedBefore(g, s, |s| - 1);
    forall k | 0 <= k < |s|
      ensures MovedCount(s, k) == s[k].start
    {
      MovedCountIsStart(s, |g|, k);
    }
  }

  /** The log holds one call per file of the walked pairs. */
  lemma {:induction false} MoveLogLength(g: seq<GalleryFile>, s: seq<Entry>, m: nat, names: seq<string>)
    requires ClosedBefore(g, s, m) && m <= |names|
    ensures |MoveLog(g, s, m, names)| == MovedCount(s, m)
  {
    if m > 0 {
      MoveLogLength(g, s, m - 1, names);
    }
  }

  /** One name and one size per closed pair; the moved files are those below the bare start,
      one `move_file` call each, and every other file is counted as left in place. */
  lemma WalkCounts(g: seq<GalleryFile>, s: seq<Entry>)
    requires Walkable(g, s)
    ensures var r := Walk(g, s);
      && |r.created| == |r.sizes| == |s| - 1
      && r.filesMoved == s[|s| - 1].start
      && r.filesMoved + r.filesUnchanged == |g|
      && |WalkMoves(g, s)| == r.filesMoved
  {
    MoveLogLength(g, s, |s| - 1, Names(g, s, |s| - 1));
  }

  /** Subfolder `k` is named after the dates of its pair's first and last file. */
  lemma WalkName(g: seq<GalleryFile>, s: seq<Entry>, k: nat)
    requires Walkable(g, s) && k < |s| - 1
    ensures InBounds(g, s[k]) && k < |Walk(g, s).created|
    ensures Walk(g, s).created[k] == SubfolderName(g[s[k].start].date, PyIndex(g, s[k].end).date)
  {
    NameAt(g, s, |s| - 1, k);
  }

  /** Subfolder `k` is sized by its pair's files. */
  lemma WalkSize(g: seq<GalleryFile>, s: seq<Entry>, k: nat)
    requires Walkable(g, s) && k < |s| - 1
    ensures InBounds(g, s[k]) && k < |Walk(g, s).sizes|
    ensures Walk(g, s).sizes[k] == TotalSize(g[s[k].start..s[k].end + 1])
  {
    SizeAt(g, s, |s| - 1, k);
  }

  /** The calls for the first `m` pairs only use the first `m` names. */
  lemma {:induction false} MoveLogUsesWalkedNames(g: seq<GalleryFile>, s: seq<Entry>, m: nat, names: seq<string>, more: seq<string>)
    requires ClosedBefore(g, s, m) && m <= |names|
    ensures MoveLog(g, s, m, names + more) == MoveLog(g, s, m, names)
  {
    if m > 0 {
      MoveLogUsesWalkedNames(g, s, m - 1, names, more);
      assert (names + more)[m - 1] == names[m - 1];
    }
  }

  /** The log only grows: walking more pairs appends to it and never rewrites a call. */
  lemma {:induction false} MoveLogExtends(g: seq<GalleryFile>, s: seq<Entry>, j: nat, m: nat, names: seq<string>)
    requires ClosedBefore(g, s, m) && j <= m <= |names|
    ensures |MoveLog(g, s, j, names)| <= |MoveLog(g, s, m, names)|
    ensures forall p :: 0 <= p < |MoveLog(g, s, j, names)| ==>
      MoveLog(g, s, m, names)[p] == MoveLog(g, s, j, names)[p]
  {
    if j < m {
      MoveLogExtends(g, s, j, m - 1, names);
    }
  }

  /** The `p`-th `move_file` call moves file `p`, and puts it into the subfolder of the closed
      pair `k` that holds it: the files go out one by one, in order. */
  lemma WalkMoveAt(g: seq<GalleryFile>, s: seq<Entry>, k: nat, p: int)
    requires Walkable(g, s) && k < |s| - 1 && s[k].start <= p <= s[k].end
    ensures k < |Walk(g, s).created|
    ensures 0 <= p < |WalkMoves(g, s)| && WalkMoves(g, s)[p] == Move(g[p].path, Walk(g, s).created[k])
  {
    var names := Names(g, s, |s| - 1);
    assert MovedCount(s, k) == s[k].start;
    MoveLogLength(g, s, k, names);
    var log := MoveLog(g, s, k, names);
    var moves := RangeMoves(g, s[k].start, s[k].end, names[k]);
    assert MoveLog(g, s, k + 1, names) == log + moves;
    assert (log + moves)[p] == moves[p - s[k].start];
    MoveLogExtends(g, s, k + 1, |s| - 1, names);
  }

  /** The recorded subfolder sizes add up to the bytes of the files below entry `m`'s start. */
  lemma {:induction false} SizesAddUp(g: seq<GalleryFile>, s: seq<Entry>, m: nat)
    requires Walkable(g, s) && m < |s|
    ensures ClosedBefore(g, s, m) && 0 <= s[m].start <= |g|
    ensures SizeSum(Sizes(g, s, m)) == TotalSize(g[..s[m].start])
  {
    assert ClosedBefore(g, s, m);
    assert MovedCount(s, m) == s[m].start;
    if m > 0 {
      SizesAddUp(g, s, m - 1);
      var e := s[m - 1];
      assert MovedCount(s, m - 1) == e.start;
      SizesStep(g, s, m);
      assert e.end + 1 == s[m].start;
      TotalSizeSplit(g, 0, e.start, e.end + 1);
    } else {
      assert g[..0] == [];
    }
  }

  /** Each closed pair adds its size to the running sum. */
  lemma SizesStep(g: seq<GalleryFile>, s: seq<Entry>, m: nat)
    requires ClosedBefore(g, s, m) && m > 0
    ensures SizeSum(Sizes(g, s, m)) == SizeSum(Sizes(g, s, m - 1)) + RangeSize(g, s[m - 1])
  {
    var prev := Sizes(g, s, m - 1);
    assert Sizes(g, s, m) == prev + [RangeSize(g, s[m - 1])];
    assert (prev + [RangeSize(g, s[m - 1])])[..m - 1] == prev;
  }

  /** The materialize loop's records after the first `k` pairs. */
  ghost predicate WalkedTo(g: seq<GalleryFile>, s: seq<Entry>, k: nat,
                           created: seq<string>, sizes: seq<nat>, moves: seq<Move>, moved: int)
  {
    && ClosedBefore(g, s, k)
    && created == Names(g, s, k)
    && sizes == Sizes(g, s, k)
    && moves == MoveLog(g, s, k, created)
    && moved == MovedCount(s, k)
  }

  /** One more closed pair: each record of the walk grows by that pair's entry. */
  lemma WalkStep(g: seq<GalleryFile>, s: seq<Entry>, k: nat,
                 created: seq<string>, sizes: seq<nat>, moves: seq<Move>, moved: int)
    requires ClosedBefore(g, s, k + 1) && WalkedTo(g, s, k, created, sizes, moves, moved)
    ensures InBounds(g, s[k])
    ensures WalkedTo(g, s, k + 1,
      created + [RangeName(g, s[k])], sizes + [RangeSize(g, s[k])],
      moves + RangeMoves(g, s[k].start, s[k].end, RangeName(g, s[k])), moved + RangeLength(s[k]))
  {
    var name := RangeName(g, s[k]);
    MoveLogUsesWalkedNames(g, s, k, created, [name]);
    assert (created + [name])[k] == name;
  }

  /** The walk stops at the first bare start, which is the last entry: the records gathered so
      far are the whole walk. */
  lemma WalkStopsAtOpen(g: seq<GalleryFile>, s: seq<Entry>, k: nat)
    requires Walkable(g, s) && k < |s| && s[k].Open?
    ensures k == |s| - 1
    ensures Walk(g, s) == Stats(Names(g, s, k), Sizes(g, s, k), MovedCount(s, k), |g| - MovedCount(s, k))
    ensures WalkMoves(g, s) == MoveLog(g, s, k, Names(g, s, k))
  {
    if k < |s| - 1 {
      assert false;
    }
  }

  /** The materialize loop at gso.py:96-111: walk the stack until the bare integer, moving the
      files of each closed pair into its subfolder and recording the subfolder's name and size. */
  method Materialize(g: seq<GalleryFile>, subfolders: seq<Entry>) returns (stats: Stats, moves: seq<Move>)
    requires Walkable(g, subfolders)
    ensures stats == Walk(g, subfolders) && moves == WalkMoves(g, subfolders)
    ensures stats.filesMoved + stats.filesUnchanged == |g|
  {
    var created: seq<string> := [];
    var sizes: seq<nat> := [];
    var moved := 0;
    moves := [];
    var k := 0;
    while k < |subfolders|
      invariant 0 <= k < |subfolders|
      invariant WalkedTo(g, subfolders, k, created, sizes, moves, moved)
    {
      if subfolders[k].Open? {
        break;
      }
      assert k < |subfolders| - 1 && ClosedBefore(g, subfolders, k + 1);
      WalkStep(g, subfolders, k, created, sizes, moves, moved);
      var i, j := subfolders[k].start, subfolders[k].end;
      var name := RangeName(g, subfolders[k]);
      var totalSize;
      moves, totalSize, moved := MoveRange(g, i, j, name, moves, moved);
      assert totalSize == RangeSize(g, subfolders[k]);
      sizes := sizes + [totalSize];
      created := created + [name];
      k := k + 1;
    }
    WalkStopsAtOpen(g, subfolders, k);
    stats := Stats(created, sizes, moved, |g| - moved);
  }

  /** The inner loop at gso.py:103-107: move the files `i..j` into subfolder `name`, one at a
      time, summing their sizes and counting them. */
  method MoveRange(g: seq<GalleryFile>, i: int, j: int, name: string, log0: seq<Move>, moved0: int)
    returns (log: seq<Move>, totalSize: nat, moved: int)
    requires 0 <= i <= j + 1 <= |g|
    ensures log == log0 + RangeMoves(g, i, j, name)
    ensures totalSize == TotalSize(g[i..j + 1])
    ensures moved == moved0 + (j + 1 - i)
  {
    log := log0;
    totalSize := 0;
    moved := moved0;
    for p := i to j + 1
      invariant log == log0 + RangeMoves(g, i, p - 1, name)
      invariant totalSize == TotalSize(g[i..p])
      invariant moved == moved0 + (p - i)
    {
      TotalSizeSplit(g, i, p, p + 1);
      TotalSizeOne(g, p);
      log := log + [Move(g[p].path, name)];
      totalSize := totalSize + g[p].size;
      moved := moved + 1;
    }
  }
}
