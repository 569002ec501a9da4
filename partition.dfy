/** The classifying loop of `split_gallery`: one greedy pass over the date-sorted files that
    cuts them into contiguous runs whose byte total stays within `max_size`. */
module Partition {
  import opened Gallery

  /** An element of the `subfolders` stack: a closed `(start, end)` pair of inclusive indices,
      or the bare integer that starts the group still being filled. */
  datatype Entry = Closed(start: int, end: int) | Open(start: int)

  /** The loop's state: the `subfolders` stack and the running `total_size`. */
  datatype Scan = Scan(subfolders: seq<Entry>, total: int)

  /** `SUBFOLDER_MAX_SIZE_GB` and the byte limit `max_size` derived from it. */
  const SubfolderMaxSizeGb: nat := 15
  const DefaultMaxSize: nat := SubfolderMaxSizeGb * 1024 * 1024 * 1024

  /** The trailing bare integer of the stack: where the still-open group starts. */
  function OpenStart(s: seq<Entry>): int
    requires |s| > 0
  {
    s[|s| - 1].start
  }

  /** Closing the open group just before index `i`: pop the open start `j`, push `(j, i - 1)`,
      then push `i`. */
  function Cut(s: seq<Entry>, i: int): seq<Entry>
    requires |s| > 0
  {
    s[..|s| - 1] + [Closed(OpenStart(s), i - 1), Open(i)]
  }

  /** One iteration of the loop, for the file at index `i` of size `size`: add the size and, on
      overflow, cut and restart the total at `size`. */
  function Step(sc: Scan, i: int, size: nat, maxSize: nat): Scan
    requires |sc.subfolders| > 0
  {
    var total := sc.total + size;
    if total > maxSize then Scan(Cut(sc.subfolders, i), size) else Scan(sc.subfolders, total)
  }

  /** The loop's state after the first `n` files of `g`, starting from `[0]` and a zero total. */
  function ScanPrefix(g: seq<GalleryFile>, n: nat, maxSize: nat): (sc: Scan)
    requires n <= |g|
    ensures |sc.subfolders| > 0
  {
    if n == 0 then Scan([Open(0)], 0)
    else Step(ScanPrefix(g, n - 1, maxSize), n - 1, g[n - 1].size, maxSize)
  }

  /** The `subfolders` stack once every file has been seen. */
  function Classification(g: seq<GalleryFile>, maxSize: nat): (s: seq<Entry>)
    ensures Shaped(s, |g|)
  {
    ScanPrefixInvariant(g, |g|, maxSize);
    ScanPrefix(g, |g|, maxSize).subfolders
  }

  /** The shape of the stack after `n` files: closed pairs, then one bare start; the first pair
      starts at 0, each later entry one past the previous end; only the first pair may be the
      empty `(0, -1)`; every index stays below `n`. */
  predicate Shaped(s: seq<Entry>, n: int) {
    && |s| > 0
    && s[|s| - 1].Open?
    && s[0].start == 0
    && 0 <= OpenStart(s) <= n
    && (n > 0 ==> OpenStart(s) < n)
    && (forall k :: 0 <= k < |s| - 1 ==>
          s[k].Closed? && 0 <= s[k].start <= s[k].end + 1 && s[k].end < OpenStart(s) && s[k].end + 2 <= n)
    && (forall k :: 0 < k < |s| - 1 ==> s[k].start <= s[k].end)
    && (forall k, k' :: 0 <= k < |s| - 1 && k' == k + 1 ==> s[k'].start == s[k].end + 1)
  }

  /** Every closed range of two or more files fits. */
  predicate ClosedRunsFit(g: seq<GalleryFile>, s: seq<Entry>, maxSize: nat) {
    forall k :: 0 <= k < |s| - 1 && s[k].Closed? && 0 <= s[k].start < s[k].end < |g| ==>
      TotalSize(g[s[k].start..s[k].end + 1]) <= maxSize
  }

  /** Every cut was forced: each closed range together with the file after it does not fit. */
  predicate CutsForced(g: seq<GalleryFile>, s: seq<Entry>, maxSize: nat) {
    forall k :: 0 <= k < |s| - 1 && s[k].Closed? && 0 <= s[k].start <= s[k].end + 2 <= |g| ==>
      TotalSize(g[s[k].start..s[k].end + 2]) > maxSize
  }

  /** What the loop keeps true after `n` files. */
  predicate ScanInvariant(g: seq<GalleryFile>, n: nat, maxSize: nat, sc: Scan)
    requires n <= |g|
  {
    var s := sc.subfolders;
    && Shaped(s, n)
    // the running total is the size of the open group
    && sc.total == TotalSize(g[OpenStart(s)..n])
    // the open group fits unless it is a single file that a cut just started
    && (n - OpenStart(s) >= 2 || |s| == 1 ==> sc.total <= maxSize)
    && ClosedRunsFit(g, s, maxSize)
    && CutsForced(g, s, maxSize)
    // the first pair is the empty (0, -1) exactly when the first file alone overflows
    && (|s| > 1 && s[0].end < s[0].start <==> n > 0 && g[0].size > maxSize)
  }

  /** A cut keeps the stack's shape: the popped start becomes a closed pair ending just before
      the file that overflowed, and that file opens the next group. */
  lemma CutKeepsShape(s: seq<Entry>, n: nat)
    requires Shaped(s, n)
    ensures Shaped(Cut(s, n), n + 1)
    ensures forall k :: 0 <= k < |s| - 1 ==> Cut(s, n)[k] == s[k]
    ensures Cut(s, n)[|s| - 1] == Closed(OpenStart(s), n - 1)
  {
    var r := Cut(s, n);
    assert forall k :: 0 <= k < |s| - 1 ==> r[k] == s[k];
    if |s| > 1 {
      assert s[0].end + 2 <= n;
    }
  }

  lemma CutKeepsFit(g: seq<GalleryFile>, s: seq<Entry>, n: nat, maxSize: nat)
    requires n < |g| && Shaped(s, n) && ClosedRunsFit(g, s, maxSize)
    requires n - OpenStart(s) >= 2 ==> TotalSize(g[OpenStart(s)..n]) <= maxSize
    ensures ClosedRunsFit(g, Cut(s, n), maxSize)
  {
    var r := Cut(s, n);
    forall k | 0 <= k < |r| - 1 && r[k].Closed? && 0 <= r[k].start < r[k].end < |g|
      ensures TotalSize(g[r[k].start..r[k].end + 1]) <= maxSize
    {
      CutPairFits(g, s, n, maxSize, k);
    }
  }

  lemma CutPairFits(g: seq<GalleryFile>, s: seq<Entry>, n: nat, maxSize: nat, k: nat)
    requires n < |g| && Shaped(s, n) && ClosedRunsFit(g, s, maxSize)
    requires n - OpenStart(s) >= 2 ==> TotalSize(g[OpenStart(s)..n]) <= maxSize
    requires k < |s| && Cut(s, n)[k].start < Cut(s, n)[k].end
    ensures 0 <= Cut(s, n)[k].start <= Cut(s, n)[k].end + 1 <= |g|
    ensures TotalSize(g[Cut(s, n)[k].start..Cut(s, n)[k].end + 1]) <= maxSize
  {
    var r := Cut(s, n);
    if k < |s| - 1 {
      assert r[k] == s[k];
    } else {
      assert r[k] == Closed(OpenStart(s), n - 1);
      assert g[r[k].start..r[k].end + 1] == g[OpenStart(s)..n];
    }
  }

  lemma CutKeepsForced(g: seq<GalleryFile>, s: seq<Entry>, n: nat, maxSize: nat)
    requires n < |g| && Shaped(s, n) && CutsForced(g, s, maxSize)
    requires TotalSize(g[OpenStart(s)..n + 1]) > maxSize
    ensures CutsForced(g, Cut(s, n), maxSize)
  {
    var r := Cut(s, n);
    forall k | 0 <= k < |r| - 1 && r[k].Closed? && 0 <= r[k].start <= r[k].end + 2 <= |g|
      ensures TotalSize(g[r[k].start..r[k].end + 2]) > maxSize
    {
      CutPairForced(g, s, n, maxSize, k);
    }
  }

  lemma CutPairForced(g: seq<GalleryFile>, s: seq<Entry>, n: nat, maxSize: nat, k: nat)
    requires n < |g| && Shaped(s, n) && CutsForced(g, s, maxSize)
    requires TotalSize(g[OpenStart(s)..n + 1]) > maxSize
    requires k < |s|
    ensures 0 <= Cut(s, n)[k].start <= Cut(s, n)[k].end + 2 <= |g|
    ensures TotalSize(g[Cut(s, n)[k].start..Cut(s, n)[k].end + 2]) > maxSize
  {
    var r := Cut(s, n);
    if k < |s| - 1 {
      assert r[k] == s[k];
    } else {
      assert r[k] == Closed(OpenStart(s), n - 1);
      assert g[r[k].start..r[k].end + 2] == g[OpenStart(s)..n + 1];
    }
  }

  lemma StepKeepsInvariant(g: seq<GalleryFile>, n: nat, maxSize: nat, sc: Scan)
    requires n < |g| && ScanInvariant(g, n, maxSize, sc)
    ensures ScanInvariant(g, n + 1, maxSize, Step(sc, n, g[n].size, maxSize))
  {
    if sc.total + g[n].size > maxSize {
      OverflowKeepsInvariant(g, n, maxSize, sc);
    } else {
      FitKeepsInvariant(g, n, maxSize, sc);
    }
  }

  /** A file that fits joins the open group. */
  lemma FitKeepsInvariant(g: seq<GalleryFile>, n: nat, maxSize: nat, sc: Scan)
    requires n < |g| && ScanInvariant(g, n, maxSize, sc) && sc.total + g[n].size <= maxSize
    ensures ScanInvariant(g, n + 1, maxSize, Scan(sc.subfolders, sc.total + g[n].size))
  {
    var s := sc.subfolders;
    TotalSizeSplit(g, OpenStart(s), n, n + 1);
    TotalSizeOne(g, n);
    assert n == 0 ==> |s| == 1;
  }

  /** A file that overflows closes the open group and opens the next one by itself. */
  lemma OverflowKeepsInvariant(g: seq<GalleryFile>, n: nat, maxSize: nat, sc: Scan)
    requires n < |g| && ScanInvariant(g, n, maxSize, sc) && sc.total + g[n].size > maxSize
    ensures ScanInvariant(g, n + 1, maxSize, Scan(Cut(sc.subfolders, n), g[n].size))
  {
    var s := sc.subfolders;
    TotalSizeSplit(g, OpenStart(s), n, n + 1);
    TotalSizeOne(g, n);
    CutKeepsShape(s, n);
    CutKeepsFit(g, s, n, maxSize);
    CutKeepsForced(g, s, n, maxSize);
    CutFirstPair(g, n, maxSize, sc);
    assert TotalSize(g[OpenStart(Cut(s, n))..n + 1]) == g[n].size;
  }

  /** After a cut the first pair is `(0, -1)` exactly when the first file alone overflows. */
  lemma CutFirstPair(g: seq<GalleryFile>, n: nat, maxSize: nat, sc: Scan)
    requires n < |g| && ScanInvariant(g, n, maxSize, sc) && sc.total + g[n].size > maxSize
    ensures var r := Cut(sc.subfolders, n); r[0].end < r[0].start <==> g[0].size > maxSize
  {
    var s := sc.subfolders;
    CutKeepsShape(s, n);
    if |s| == 1 {
      if n > 0 {
        TotalSizeMonotone(g, 0, 1, n);
        TotalSizeOne(g, 0);
      } else {
        assert g[0..0] == [];
      }
    } else {
      assert Cut(s, n)[0] == s[0];
    }
  }

  /** The loop invariant holds after every prefix of the files. */
  lemma {:induction false} ScanPrefixInvariant(g: seq<GalleryFile>, n: nat, maxSize: nat)
    requires n <= |g|
    ensures ScanInvariant(g, n, maxSize, ScanPrefix(g, n, maxSize))
  {
    if n > 0 {
      ScanPrefixInvariant(g, n - 1, maxSize);
      ScanPrefixStep(g, n, maxSize);
    } else {
      StartKeepsInvariant(g, maxSize);
    }
  }

  lemma ScanPrefixStep(g: seq<GalleryFile>, n: nat, maxSize: nat)
    requires 0 < n <= |g| && ScanInvariant(g, n - 1, maxSize, ScanPrefix(g, n - 1, maxSize))
    ensures ScanInvariant(g, n, maxSize, ScanPrefix(g, n, maxSize))
  {
    var prev := ScanPrefix(g, n - 1, maxSize);
    var next := Step(prev, n - 1, g[n - 1].size, maxSize);
    assert ScanPrefix(g, n, maxSize) == next;
    StepKeepsInvariant(g, n - 1, maxSize, prev);
  }

  /** Before any file, the stack `[0]` with a zero total satisfies the loop invariant. */
  lemma StartKeepsInvariant(g: seq<GalleryFile>, maxSize: nat)
    ensures ScanInvariant(g, 0, maxSize, Scan([Open(0)], 0))
  {
    assert g[0..0] == [];
  }

  /** No cut happens, so the stack stays `[0]`, exactly when all the files together fit. */
  lemma NoCutIffFits(g: seq<GalleryFile>, maxSize: nat)
    ensures |Classification(g, maxSize)| == 1 <==> TotalSize(g) <= maxSize
  {
    var s := Classification(g, maxSize);
    ScanPrefixInvariant(g, |g|, maxSize);
    assert g[0..|g|] == g;
    if |s| > 1 {
      TotalSizeMonotone(g, 0, s[0].end + 2, |g|);
    }
  }

  /** A closed range holds its files `start..end`; the open group holds the rest. */
  function Hi(s: seq<Entry>, k: nat, n: int): int
    requires k < |s|
  {
    if s[k].Closed? then s[k].end + 1 else n
  }

  predicate Holds(s: seq<Entry>, k: nat, p: int, n: int)
    requires k < |s|
  {
    s[k].start <= p < Hi(s, k, n)
  }

  lemma {:induction false} StartsAscend(s: seq<Entry>, n: int, k: nat, k': nat)
    requires Shaped(s, n) && k < k' < |s|
    ensures Hi(s, k, n) <= s[k'].start
  {
    if k' > k + 1 {
      StartsAscend(s, n, k, k' - 1);
    }
  }

  /** Contiguity gives a partition: each index below `n` lies in exactly one entry, closed or open. */
  lemma CoveredExactlyOnce(s: seq<Entry>, n: int, p: int)
    requires Shaped(s, n) && 0 <= p < n
    ensures exists k :: 0 <= k < |s| && Holds(s, k, p, n)
    ensures forall k, k' :: 0 <= k < k' < |s| ==> !(Holds(s, k, p, n) && Holds(s, k', p, n))
  {
    var k := 0;
    while k < |s| - 1 && s[k + 1].start <= p
      invariant 0 <= k < |s| && s[k].start <= p
    {
      k := k + 1;
    }
    assert Holds(s, k, p, n);
    forall k1, k2 | 0 <= k1 < k2 < |s|
      ensures !(Holds(s, k1, p, n) && Holds(s, k2, p, n))
    {
      StartsAscend(s, n, k1, k2);
    }
  }

  /** A run over the limit, closed or open, holds exactly one file: a file bigger than
      `max_size` is never grouped with another. */
  lemma OversizedStandsAlone(g: seq<GalleryFile>, maxSize: nat, k: nat)
    requires k < |Classification(g, maxSize)|
    requires var s := Classification(g, maxSize);
      s[k].start < Hi(s, k, |g|) && TotalSize(g[s[k].start..Hi(s, k, |g|)]) > maxSize
    ensures var s := Classification(g, maxSize); Hi(s, k, |g|) == s[k].start + 1
  {
    ScanPrefixInvariant(g, |g|, maxSize);
  }

  /** The empty pair `(0, -1)` is recorded exactly when the first file alone exceeds the limit. */
  lemma EmptyPairIffFirstOversized(g: seq<GalleryFile>, maxSize: nat)
    ensures var s := Classification(g, maxSize);
      (|s| > 1 && s[0] == Closed(0, -1)) <==> (|g| > 0 && g[0].size > maxSize)
  {
    ScanPrefixInvariant(g, |g|, maxSize);
  }

  /** Greedy and bounded: a closed range of two or more files fits the limit, and the range
      together with the next file does not (that file is why the range was closed). */
  lemma ClosedRangeBounds(g: seq<GalleryFile>, maxSize: nat, k: nat)
    requires k < |Classification(g, maxSize)| - 1
    ensures var s := Classification(g, maxSize);
      && (s[k].start < s[k].end ==> TotalSize(g[s[k].start..s[k].end + 1]) <= maxSize)
      && (TotalSize(g[s[k].start..s[k].end + 1]) > maxSize ==> s[k].start == s[k].end)
      && TotalSize(g[s[k].start..s[k].end + 2]) > maxSize
  {
    ScanPrefixInvariant(g, |g|, maxSize);
    var s := Classification(g, maxSize);
    if s[k].start == s[k].end + 1 {
      assert g[s[k].start..s[k].end + 1] == [];
    }
  }

  /** The group still open when the loop ends fits the limit, unless it is a single file left
      behind by a cut. */
  lemma OpenGroupFits(g: seq<GalleryFile>, maxSize: nat)
    ensures var s := Classification(g, maxSize);
      |g| - OpenStart(s) >= 2 || |s| == 1 ==> TotalSize(g[OpenStart(s)..]) <= maxSize
  {
    ScanPrefixInvariant(g, |g|, maxSize);
    assert g[OpenStart(Classification(g, maxSize))..|g|] == g[OpenStart(Classification(g, maxSize))..];
  }

  /** The loop at gso.py:80-90, run over the sorted files. */
  method Classify(g: seq<GalleryFile>, maxSize: nat) returns (subfolders: seq<Entry>)
    ensures subfolders == Classification(g, maxSize)
  {
    subfolders := [Open(0)];
    var totalSize := 0;
    var i := 0;
    while i < |g|
      invariant 0 <= i <= |g|
      invariant Scan(subfolders, totalSize) == ScanPrefix(g, i, maxSize)
    {
      totalSize := totalSize + g[i].size;
      if totalSize > maxSize {
        var j := subfolders[|subfolders| - 1].start;
        subfolders := subfolders[..|subfolders| - 1];
        subfolders := subfolders + [Closed(j, i - 1)];
        subfolders := subfolders + [Open(i)];
        totalSize := g[i].size;
      }
      i := i + 1;
    }
  }
}
