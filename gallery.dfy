/** A gallery file with the metadata `split_gallery` attaches to it, and byte totals over runs of files. */
module Gallery {
  import opened Dates

  type Path = string

  /** The `{"file", "size", "date"}` record built for every file: its path, its size in bytes
      and its modification date. */
  datatype GalleryFile = GalleryFile(path: Path, size: nat, date: DateTime)

  /** Sum of the sizes of a run of files, accumulated left to right as the script does. */
  function TotalSize(s: seq<GalleryFile>): nat {
    if s == [] then 0 else TotalSize(s[..|s| - 1]) + s[|s| - 1].size
  }

  lemma {:induction false} TotalSizeAppend(a: seq<GalleryFile>, b: seq<GalleryFile>)
    ensures TotalSize(a + b) == TotalSize(a) + TotalSize(b)
  {
    if b != [] {
      assert (a + b)[..|a + b| - 1] == a + b[..|b| - 1];
      TotalSizeAppend(a, b[..|b| - 1]);
    } else {
      assert a + b == a;
    }
  }

  /** Splitting a run at `mid` splits its total. */
  lemma TotalSizeSplit(g: seq<GalleryFile>, lo: nat, mid: nat, hi: nat)
    requires lo <= mid <= hi <= |g|
    ensures TotalSize(g[lo..hi]) == TotalSize(g[lo..mid]) + TotalSize(g[mid..hi])
  {
    assert g[lo..hi] == g[lo..mid] + g[mid..hi];
    TotalSizeAppend(g[lo..mid], g[mid..hi]);
  }

  /** Sizes are never negative, so extending a run never lowers its total. */
  lemma TotalSizeMonotone(g: seq<GalleryFile>, lo: nat, hi: nat, hi': nat)
    requires lo <= hi <= hi' <= |g|
    ensures TotalSize(g[lo..hi]) <= TotalSize(g[lo..hi'])
  {
    TotalSizeSplit(g, lo, hi, hi');
  }

  lemma TotalSizeOne(g: seq<GalleryFile>, i: nat)
    requires i < |g|
    ensures TotalSize(g[i..i + 1]) == g[i].size
  {
    assert g[i..i + 1][..0] == [];
  }
}
