# Gallery splitter, modelled in Dafny

`gso.py` tidies a phone's camera folder. Its one piece of real logic is `split_gallery`. It
takes the files of the folder, attaches each file's byte size and modification date, and sorts
the files by date (a stable sort). One greedy pass then cuts the sorted files into contiguous
groups of at most `max_size` bytes (15 GiB by default), except that a single file larger than
the limit forms a group of its own. Every closed group is moved into a
subfolder named `dd.mm.yyyy-dd.mm.yyyy`, after the dates of its first and last file (except
the empty `(0, -1)` pair, see below). The
function returns the subfolder names, the subfolder sizes, and the number of files moved and
left in place.

The model follows the program's own structure:

| file | module | models |
|---|---|---|
| `dates.dfy` | `Dates` | the naive `datetime`, its ordering, and `format_date` (`strftime("%d.%m.%Y")`) |
| `gallery.dfy` | `Gallery` | the `{"file", "size", "date"}` record and byte totals over runs of files |
| `sort.dfy` | `DateSort` | `gallery_files.sort(key=...)`: a stable sort specification and an in-place array sort proved against it |
| `partition.dfy` | `Partition` | the classifying loop with its `subfolders` stack of `(start, end)` pairs and a trailing bare start |
| `subfolders.dfy` | `Subfolders` | the materialize loop: names, sizes, counters and the log of `move_file` calls |
| `organizer.dfy` | `Organizer` | `split_gallery` end to end, and facts about its returned dictionary |

Each loop of `split_gallery` is a `method` with loop invariants. Each method is proved equal to a
specification function:
- `SortInPlace` is proved equal to `SortByDate`.
- `Classify` is proved equal to `Classification`.
- `Materialize` is proved equal to `Walk` and `WalkMoves`.
- `SplitGallery` is proved equal to `Outcome` and `MoveCalls`.

The lemmas state what the program promises about those specification functions.

The file system is represented by values:
- `get_filesize` and `get_mtime` become the function parameters `sizeOf` and `mtimeOf`.
- `move_file(file, subfolder)` becomes a `Move(path, folder)` entry appended to a log. The log is returned beside the statistics.

## Model

| member | source | states |
|---|---|---|
| Dates.Less | gso.py:77 | definition (no contract): Python's `<` on naive datetimes, the sort key's order; properties in LessIsStrictTotalOrder and NotLessTransitive |
| Dates.Digits | gso.py:59 | definition (no contract): `n` as `w` zero-padded decimal digits; properties in DigitsLength, ValueOfDigits, TwoDigits and FourDigits |
| Dates.FormatDate | gso.py:55-59 | definition (no contract): `format_date`, day, month and year joined by dots; properties in FormatDateChars, FormatDateFields, FormatDateRoundTrip and FormatDateSameDay |
| Dates.LessIsStrictTotalOrder | gso.py:77 | the date key's `<` is irreflexive, asymmetric, transitive and total, so sorting by it is well defined |
| Dates.NotLessTransitive | gso.py:77 | "not dated after" chains: if b is not before a and c is not before b, then c is not before a |
| Dates.DigitsLength | gso.py:59 | a `%02d`/`%04d` style rendering has exactly the requested width |
| Dates.ValueOfDigits | gso.py:59 | a zero-padded rendering is all decimal digits, and reading it back gives the number written |
| Dates.TwoDigits | gso.py:59 | two-digit zero padding writes the tens digit and then the units digit |
| Dates.FourDigits | gso.py:59 | four-digit zero padding writes the thousands, hundreds, tens and units digits |
| Dates.FormatDateChars | gso.py:55-59 | the exact ten characters of `format_date`: day digits, dot, month digits, dot, four year digits |
| Dates.FormatDateFields | gso.py:55-59 | the text is 10 characters long, with dots at positions 2 and 5 and the day, month and year fields in between |
| Dates.FormatDateRoundTrip | gso.py:55-59 | the text is a well-formed `dd.mm.yyyy` string, and parsing it gives back the date's day, month and year |
| Dates.FormatDateSameDay | gso.py:55-59 | two dates get the same text if and only if they fall on the same calendar day |
| Gallery.TotalSize | gso.py:84-106 | definition (no contract): the byte total of a run of files, summed left to right; properties in TotalSizeAppend, TotalSizeSplit, TotalSizeMonotone and TotalSizeOne |
| Gallery.TotalSizeAppend | gso.py:84 | the byte total of two runs put together is the sum of their totals |
| Gallery.TotalSizeSplit | gso.py:84 | splitting a run at any point splits its total |
| Gallery.TotalSizeMonotone | gso.py:84-85 | adding files to a run never lowers its total |
| Gallery.TotalSizeOne | gso.py:106 | a run of one file totals that file's size |
| DateSort.Insert | gso.py:77 | definition (no contract): puts a file after every file not dated after it; properties in InsertPermutes, InsertKeepsSorted, InsertIsStable and InsertKeepsTotal |
| DateSort.SortByDate | gso.py:76-77 | definition (no contract): the stable sort by date; properties in SortByDatePermutes, SortByDateSorts, SortByDateIsStable, SortByDateKeepsSorted and SortByDateKeepsTotal |
| DateSort.InsertPermutes | gso.py:77 | inserting a file adds exactly that file to the multiset |
| DateSort.InsertKeepsSorted | gso.py:77 | inserting into a date-ordered sequence keeps it date-ordered |
| DateSort.InsertIsStable | gso.py:77 | insertion places the new file after every earlier file with the same date |
| DateSort.InsertKeepsTotal | gso.py:77 | insertion adds the new file's size to the byte total |
| DateSort.SortByDatePermutes | gso.py:76-77 | the sorted files are a permutation of the input, of the same length |
| DateSort.SortByDateSorts | gso.py:76-77 | the sorted files are in ascending (non-decreasing) date order |
| DateSort.SortByDateIsStable | gso.py:76-77 | for every date, the files with that date keep their input order |
| DateSort.SortByDateKeepsSorted | gso.py:76-77 | input already in date order is left unchanged |
| DateSort.SortByDateKeepsTotal | gso.py:76-77 | sorting does not change the total size |
| DateSort.SortInPlace | gso.py:77 | sorting the array in place leaves exactly the stable date sort of its old contents |
| DateSort.InsertAt | gso.py:77 | one insertion step makes the prefix up to `i` the sorted insertion of `a[i]`, and leaves the rest of the array untouched |
| Partition.DefaultMaxSize | gso.py:81 | definition (constant): `max_size`, `SUBFOLDER_MAX_SIZE_GB` (15) times 1024 to the third power bytes; used by the Example lemmas |
| Partition.Cut | gso.py:86-88 | definition (no contract): pop the open start `j`, push `(j, i-1)`, push `i`; properties in CutKeepsShape, CutKeepsFit, CutKeepsForced and CutFirstPair |
| Partition.Step | gso.py:84-90 | definition (no contract): one iteration, adding the size and cutting on overflow; properties in StepKeepsInvariant, FitKeepsInvariant and OverflowKeepsInvariant |
| Partition.ScanPrefix | gso.py:80-90 | definition: the loop state after `n` files, starting from `[0]` and a zero total; its contract says the stack is never empty; properties in ScanPrefixInvariant |
| Partition.Classification | gso.py:79-90 | the final stack is well shaped (see `Shaped`): closed pairs, then one bare start, contiguous from 0, within the file count |
| Partition.StartKeepsInvariant | gso.py:80-82 | the start state `[0]` with a zero total satisfies the loop invariant |
| Partition.CutKeepsShape | gso.py:86-88 | pop/append/append turns the open start into the pair `(start, i-1)` followed by `i`, keeps the earlier pairs and keeps the shape |
| Partition.CutKeepsFit | gso.py:85-88 | a cut never closes a range of two or more files that exceeds the limit |
| Partition.CutKeepsForced | gso.py:85-88 | after a cut, every closed range plus the file after it overflows the limit |
| Partition.CutFirstPair | gso.py:85-88 | after a cut, the first pair is the empty `(0, -1)` exactly when the first file alone overflows |
| Partition.FitKeepsInvariant | gso.py:84 | adding a file that fits keeps the invariant, with the running total grown by its size |
| Partition.OverflowKeepsInvariant | gso.py:85-89 | an overflowing file keeps the invariant: it closes the group and restarts the total at its own size |
| Partition.StepKeepsInvariant | gso.py:83-90 | one loop iteration preserves the loop invariant |
| Partition.ScanPrefixInvariant | gso.py:83-90 | after every prefix: the stack is well shaped, `total_size` is the byte total from the open start through the last file seen, closed ranges of two or more files fit, every cut was forced, and the first-file-overflow fact holds |
| Partition.ScanPrefixStep | gso.py:83-90 | the invariant after `n-1` files carries over to `n` files |
| Partition.NoCutIffFits | gso.py:85 | the stack stays `[0]` if and only if all the files together fit the limit |
| Partition.StartsAscend | gso.py:86-88 | every later entry starts after the end of every earlier one |
| Partition.CoveredExactlyOnce | gso.py:80-88 | every file index lies in exactly one entry of the stack, either a closed pair or the open group |
| Partition.OversizedStandsAlone | gso.py:84-89 | a range over the limit, closed or open, holds exactly one file |
| Partition.EmptyPairIffFirstOversized | gso.py:85-88 | the pair `(0, -1)` is recorded if and only if the first file alone exceeds the limit |
| Partition.ClosedRangeBounds | gso.py:84-89 | a closed range of two or more files fits; a closed range over the limit is a single file; a range plus its next file overflows |
| Partition.OpenGroupFits | gso.py:84-89 | the group still open at the end fits, unless it is one file left behind by a cut |
| Partition.Classify | gso.py:79-90 | the loop over the sorted files leaves exactly the stack `Classification` describes |
| Subfolders.SubfolderName | gso.py:102 | definition (no contract): the two formatted dates joined by a dash; properties in SubfolderNameRoundTrip and SubfolderNameExample |
| Subfolders.PyIndex | gso.py:102 | definition (no contract): Python list indexing, where `-1` is the last file; used by WalkName and EmptyFirstSubfolder |
| Subfolders.RangeName | gso.py:101-102 | definition (no contract): the name of one closed pair's subfolder; properties in NameAt and WalkName |
| Subfolders.RangeSize | gso.py:103-106 | definition (no contract): the inner loop's `total_size` for one closed pair, 0 for `(0, -1)`; properties in SizeAt, WalkSize, SizesStep and MoveRange |
| Subfolders.RangeLength | gso.py:104-107 | definition (no contract): how many files `range(i, j+1)` visits and `files_moved` counts; properties in MovedCountIsStart and MoveRange |
| Subfolders.RangeMoves | gso.py:104-105 | definition (no contract): the `move_file` calls of the inner loop for one pair, in order; properties in MoveRange and WalkMoveAt |
| Subfolders.MoveLog | gso.py:98-105 | definition (no contract): the calls collected over the first `m` pairs; properties in MoveLogLength, MoveLogExtends and MoveLogUsesWalkedNames |
| Subfolders.Names | gso.py:102-109 | definition: `subfolders_created` after the first `m` pairs; its contract gives its length; properties in NameAt |
| Subfolders.Sizes | gso.py:103-108 | definition: `subfolders_size` after the first `m` pairs; its contract gives its length; properties in SizeAt, SizesStep and SizesAddUp |
| Subfolders.MovedCount | gso.py:104-107 | definition (no contract): `files_moved` after the first `m` pairs; properties in MovedCountIsStart and MoveLogLength |
| Subfolders.Walk | gso.py:98-111 | definition (no contract): the statistics the materialize loop leaves; properties in WalkCounts, WalkName, WalkSize and SizesAddUp |
| Subfolders.WalkMoves | gso.py:104-105 | definition (no contract): the `move_file` calls the materialize loop makes; properties in WalkCounts and WalkMoveAt |
| Subfolders.SubfolderNameRoundTrip | gso.py:102 | a subfolder name is 21 characters: two `dd.mm.yyyy` dates around a dash, each giving back its date's day, month and year |
| Subfolders.SubfolderNameExample | gso.py:102 | files dated 1 and 10 January 2024 give the name `01.01.2024-10.01.2024` |
| Subfolders.NameAt | gso.py:102-109 | entry `k` of the created names is the name of closed pair `k` |
| Subfolders.SizeAt | gso.py:103-108 | entry `k` of the recorded sizes is the byte total of closed pair `k` |
| Subfolders.MovedCountIsStart | gso.py:104-107 | in a well-shaped stack, the files counted before entry `m` are exactly the indices below entry `m`'s start |
| Subfolders.ShapedIsWalkable | gso.py:98-101 | every stack the classifying loop leaves can be walked: closed pairs in bounds, and the loop stops at the bare start |
| Subfolders.MoveLogLength | gso.py:104-107 | one `move_file` call per file of the walked pairs |
| Subfolders.MoveLogUsesWalkedNames | gso.py:105 | the calls for the first pairs only use those pairs' names |
| Subfolders.MoveLogExtends | gso.py:105 | walking more pairs only appends calls and never rewrites one |
| Subfolders.WalkCounts | gso.py:98-111 | there is one name and one size per closed pair; `files_moved` is the bare start; moved plus unchanged is the number of files; one move per moved file |
| Subfolders.WalkName | gso.py:101-102 | subfolder `k` is named after the first file's date and the date at Python index `end`, where `-1` is the last file |
| Subfolders.WalkSize | gso.py:103-108 | the recorded size of subfolder `k` is the byte total of its files |
| Subfolders.WalkMoveAt | gso.py:104-105 | the `p`-th `move_file` call moves file `p`, into the subfolder of the pair that holds it |
| Subfolders.SizesAddUp | gso.py:103-108 | the recorded sizes add up to the bytes of all files below a given entry's start |
| Subfolders.SizesStep | gso.py:108 | each closed pair adds its own size to the sum of recorded sizes |
| Subfolders.WalkStep | gso.py:101-109 | one pair of the walk appends its name, its size, its moves and its file count |
| Subfolders.WalkStopsAtOpen | gso.py:99-100 | the first bare integer is the last entry, so the records gathered up to it are the whole result |
| Subfolders.Materialize | gso.py:93-111 | the materialize loop returns exactly the walk's statistics and move log, with moved plus unchanged equal to the number of files |
| Subfolders.MoveRange | gso.py:103-107 | the inner loop appends one move per file `i..j`, sums their sizes and counts them |
| Organizer.Records | gso.py:67-74 | one record per file, in input order, carrying that file's size and date |
| Organizer.AttachMetadata | gso.py:67-74 | the metadata loop builds exactly those records |
| Organizer.Stack | gso.py:76-90 | the stack left for the sorted records is well shaped |
| Organizer.StackIsWalkable | gso.py:76-100 | the sorted records and their stack can be walked by the materialize loop |
| Organizer.Outcome | gso.py:62-119 | composes the sort, the classifying loop and the walk; its contract states that every file is counted once, as moved or as left in place; further properties in OutcomeCounts through MovesFollowDateOrder |
| Organizer.MoveCalls | gso.py:105 | definition (no contract): the `move_file` calls of `split_gallery` for the records, in order; properties in OutcomeCounts, MoveAt and MovesFollowDateOrder |
| Organizer.OutcomeCounts | gso.py:98-111 | moved plus unchanged is the file count; at least one file always stays when there are files; one name and one size per cut; one move per moved file |
| Organizer.NoSubfolderIffAllFit | gso.py:85-100 | no subfolder is created if and only if the total fits the limit; then nothing is moved |
| Organizer.SubfolderAt | gso.py:101-109 | subfolder `k` is named after its first and last file's dates, and sized by its files |
| Organizer.SubfolderBounds | gso.py:84-108 | a subfolder over the limit holds one file, and every subfolder plus the next file overflows |
| Organizer.MoveAt | gso.py:104-105 | each moved file goes into the subfolder of the one closed pair holding it |
| Organizer.SizesAddUpToMoved | gso.py:106-108 | the recorded sizes add up to the bytes of the moved files, which are the earliest ones |
| Organizer.UnmovedFit | gso.py:84-111 | the unmoved files are the latest ones, and they fit the limit unless only one file is left |
| Organizer.EmptyFirstSubfolder | gso.py:85-109 | an oversized first file yields a first subfolder `(0, -1)` of size 0, with nothing moved into it and a name ending with the last file's date; every other subfolder holds files |
| Organizer.MovesFollowDateOrder | gso.py:77-105 | the moved files, in call order, are the earliest files in date order; the date order is a sorted permutation of the input |
| Organizer.ExampleStack | gso.py:79-90 | files of 5, 5, 5 and 1 GiB under the 15 GiB limit give the stack `[(0, 2), 3]` |
| Organizer.ExampleThreeMovedOneKept | gso.py:62-119 | those files give one 15 GiB subfolder holding the first three files, and the fourth file stays |
| Organizer.ExampleOversizedStack | gso.py:79-90 | a single file over the limit gives the stack `[(0, -1), 0]` |
| Organizer.ExampleOneOversizedFile | gso.py:62-119 | that file gives one subfolder name of size 0; nothing is moved and the file stays |
| Organizer.ExampleOversizedFirst | gso.py:84-111 | a 20 GiB first file followed by a 1-byte file gives the stack `[(0, -1), (0, 0), 1]`: two names, the oversized file moved, the small one kept |
| Organizer.ExampleOversizedLast | gso.py:84-111 | a 1-byte file followed by a 20 GiB file gives the stack `[(0, 0), 1]`: the oversized last file is never moved |
| Organizer.SplitGallery | gso.py:62-119 | `split_gallery` returns the dictionary `Outcome` describes and makes exactly the `MoveCalls` moves |

## Where the code and its description part ways

The docstring says that every file goes into a subfolder of at most 15 GB. The model follows
the code:
- The last group is never moved. The materialize loop stops at the trailing bare integer (gso.py:99-100). The files of the open group are counted in `files_unchanged` and stay where they are. If no cut happens, nothing moves at all.
- A file larger than the limit is never grouped with another file. Unless it is the last file in date order, it ends up alone in a closed subfolder whose recorded size exceeds the limit, and it is moved. The last file in date order, oversized or not, belongs to the open group and is never moved.
- If the first file alone exceeds the limit, the cut records the empty pair `(0, -1)`. That subfolder is still reported. Its size is 0 and nothing is moved into it. Its name ends with the date of `gallery_files[-1]`, which is the last file in date order. The oversized file opens the next group; if another file follows, it is closed alone as the pair `(0, 0)` right after `(0, -1)`.
- For that reason, `subfolders_created` can be non-empty while `files_moved` is 0.

## Left out

- `get_filesize` and `get_mtime` (gso.py:30-41) are file-system reads. They are modelled as the function parameters `sizeOf` and `mtimeOf`.
- `move_file` (gso.py:44-52) creates directories and moves files. It is modelled only as an entry in the returned move log, in call order. Failures, name clashes and the effect on the directory are not modelled.
- `get_gallery_folder`, `get_files`, `ui_confirm_yn`, `ui_input_path` and `main` (gso.py:122-214) are not part of this model. They are directory probing, interactive input and console output, including the floating-point GB conversion and `%2.3f` formatting in `main`.
- `datetime.fromtimestamp` time zones, daylight-saving folds and sub-microsecond precision are not modelled. A date is a naive (year, month, day, time of day) value compared lexicographically. `Day` ranges over 1..31 for every month, so the model admits some dates Python rejects.
- Dates.FormatDate: does not model the locale or platform behaviour of `strftime`. The year is always written as four zero-padded digits, although some C libraries write fewer digits for years below 1000.
- DateSort.SortInPlace: Python's `list.sort` is Timsort, modelled here by an insertion sort with the same contract (a stable sort by date). The contract is what the program relies on; the algorithm is not.
- Python integers are unbounded, and so are the model's sizes and counters. No overflow exists to model.
