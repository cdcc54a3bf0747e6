# epub2pdf conversion core in Dafny

This project models the conversion core of epub2pdf, a tool that turns
CBR/CBZ comic archives (and, nominally, EPUB books) into PDF files, together
with the bookkeeping around it: the file catalogue, the selection, the
destination paths, the manga metadata, the script runner and the tuning
helpers.

The pipeline of the native converter works in steps:

- Extraction (`extractor.dfy`): an archive's image entries are extracted into
  a fresh temporary directory. A CBR goes through `unar` first, then the
  in-process reader.
- Ordering and grouping (`image_processor.dfy`): the images are deduplicated,
  sorted by natural key and reordered by the merge-order policy. They are
  then cut into groups of a size computed from the image count and the
  worker count.
- Group conversion (`image_processor.dfy`): each group becomes a temporary
  PDF that must pass the `%PDF`/`%%EOF` checks.
- Merging (`pdf_merger.dfy`): the group PDFs are merged page by page, with a
  fallback that copies the largest one.
- Results (`native_converter.dfy`): the converter dispatches by format,
  reports its result messages and cleans up the temporary files.

The modules around the pipeline:

- `file_manager.dfy`, `file_filters.dfy` and `file_selection.dfy`: the
  catalogue filters, sorts, selects and groups files.
- `destination_utils.dfy`: derives output folders and free file names.
- `metadata_manager.dfy`: parses manga file names and assembles the PDF
  metadata.
- `conversion_manager.dfy`: builds shell command lines and tallies
  sequential and thread-pool runs.
- `performance_optimizer.dfy`: holds the tuning tables, a TTL cache and
  batch processing.

Shared pieces:

- `common.dfy`: paths, ASCII character classes, `strip`, `lower`, and a
  file system as a map from paths to bytes.
- `patterns.dfy`: the file-name regular expressions, all of the shape
  `^(.+?)` followed by a deterministic tail.
- `sorting.dfy`: Python's stable sort and list comparison.
- `fifo_cache.dfy`: the insertion-ordered, first-in-first-out bounded caches
  of the merger, the image processor and the file manager.

How the model stands in for what it cannot run:

- Objects whose fields the program updates are classes, and their methods
  are proved against specification functions.
- Loops are loops with invariants.
- Collaborators the core cannot see are parameters:
  - Pillow, PyPDF2, the archive readers, `unar` and the scripts;
  - the clock, the system probes and the random directory names.
- A thread pool is a sequential loop over the results in a completion order
  given as a parameter: any permutation of the submitted jobs.

Where the code differs from what its comments and documentation describe,
the model follows the code:

- The group gate is `max(1, G // 3)`, a floor.
- `list(set(...))` loses the group order; it is modelled as an arbitrary
  duplicate-free order.
- Fewer than three workers give a float group size, and `range` then
  raises.
- The image cache helps only within one call of `_load_images_optimized`.
  Each cached image is handed to the PDF writer and closed once its group is
  saved, so a later `.copy()` of it raises and the image is skipped.
- A worker count that is not positive makes every thread pool raise when it
  is built, before any job is submitted.
- Extracting a nested archive entry such as `ch1/001.jpg` also creates its
  directories under the extraction directory, and cleanup leaves them.
- The file manager counts every supported file as converted, because the
  converter's `(bool, str)` answer is always truthy.
- A callback that raises after a success makes a run count the file both as
  completed and as failed.
- `process_metadata` calls `MetadataManager.extract_title_info`, which
  `metadata_manager.py` does not define. The call therefore raises, and the
  handler returns the path unchanged.
  - `ConversionManager.ProcessMetadata` takes whether a step raises as a
    parameter, so it covers both this behaviour and a working helper.

## Model

| member | source | states |
|---|---|---|
| BaseConverter.KeyShape | src/core/converter/base_converter.py:74-78 | every natural key has odd length, with lowered text runs at the even positions and digit-run values at the odd ones |
| BaseConverter.KindsAgree | src/core/converter/base_converter.py:74-78 | two natural keys hold the same kind at every position they share, so comparing them never sets a string against an integer |
| BaseConverter.KeyLtStrictTotalOrder | src/core/converter/base_converter.py:74-78 | list comparison of natural keys is irreflexive, transitive and total |
| BaseConverter.NaturalLeTotalPreorder | src/core/converter/base_converter.py:74-78 | the relation `sort(key=_natural_sort_key)` orders by is total and transitive |
| BaseConverter.NaturalKeyIgnoresCase | src/core/converter/base_converter.py:74-78 | a name and its lower-cased form have the same key |
| BaseConverter.KeyOfNumbered | src/core/converter/base_converter.py:74-78 | the key of digit-free text, a digit run and a tail not starting with a digit is the lowered text, the run's integer value, then the key of the tail |
| BaseConverter.NumbersCompareByValue | src/core/converter/base_converter.py:74-78 | names that differ only in one number sort by the number's value ("page2" before "page10"), strictly |
| BaseConverter.LeadingZerosIgnored | src/core/converter/base_converter.py:74-78 | a leading zero on a digit run leaves the key unchanged ("p01" and "p1" tie) |
| BaseConverter.ImageFileByExtension | src/core/converter/base_converter.py:80-83 | a bare file name is an image exactly when its lowered extension is one of the six listed, in any letter case |
| FifoCache.PutValid | src/core/converter/image_processor.py:326 | `cache[k] = v` keeps the insertion-ordered dict well formed and grows it by one exactly when the key is new |
| FifoCache.InsertStores | src/core/converter/image_processor.py:319-326 | after `_add_to_cache` the key maps to the new value and the dict stays well formed |
| FifoCache.InsertBounded | src/core/converter/image_processor.py:319-326 | a cache within its capacity stays within it after `_add_to_cache` |
| FifoCache.InsertOverCapacityNeverGrows | src/core/file_manager.py:245-252 | a cache already above its (lowered) capacity never grows: each insertion evicts first |
| FifoCache.InsertEvictsOldest | src/core/converter/pdf_merger.py:225-232 | at capacity the first-inserted key leaves (unless it is the key stored) and every other entry keeps its value |
| FifoCache.FullUpdateShrinks | src/core/converter/pdf_merger.py:225-232 | re-storing a present key into a full cache still evicts the oldest entry, so the cache shrinks by one |
| FifoCache.InsertKeepsWhenRoom | src/core/converter/image_processor.py:319-326 | below capacity nothing is evicted: every other entry keeps its value |
| PdfMerger.ValidPdfsMembers | src/core/converter/pdf_merger.py:63-92 | a path survives validation exactly when it is an input that exists, has at least 1000 bytes and starts with `%PDF`; no more paths come out than went in |
| PdfMerger.ValidPdfsNoDup | src/core/converter/pdf_merger.py:31-37 | validating the deduplicated list keeps it free of duplicates |
| PdfMerger.CollectPagesIsFresh | src/core/converter/pdf_merger.py:104-141 | while every cached entry matches its file, the page loop yields exactly the pages of the readable non-empty inputs in list order, and the cache keeps matching |
| PdfMerger.CachedPagesServedRegardlessOfFile | src/core/converter/pdf_merger.py:107-114 | a path in the page cache contributes its cached pages whatever its file now holds |
| PdfMerger.CollectPagesKeepsCacheValid | src/core/converter/pdf_merger.py:133-134 | the page loop keeps the cache well formed and within its 20 entries |
| PdfMerger.WriteMergedSucceedsOnlyIfChecked | src/core/converter/pdf_merger.py:143-158 | the structural merge reports success exactly when the output can be written and the serialised pages are at least 1000 bytes starting with `%PDF`, and then the written file passes those checks |
| PdfMerger.Largest | src/core/converter/pdf_merger.py:167-180 | the scan returns an input file at least as large as every existing input, or nothing with size 0 |
| PdfMerger.LargestIsFirst | src/core/converter/pdf_merger.py:167-180 | the scan finds nothing exactly when no input is a non-empty file; otherwise it finds the first input of maximal size |
| PdfMerger.SimpleMergeSpec | src/core/converter/pdf_merger.py:164-196 | the copy fallback succeeds exactly when a non-empty input exists and the copy can be made onto a different path, and the copy then holds the largest input's bytes |
| PdfMerger.DeleteFile | src/core/converter/pdf_merger.py:258-266 | a delete reports True exactly when the path was a regular file, and removes that path and nothing else |
| PdfMerger.PdfMerger.AddToCache | src/core/converter/pdf_merger.py:225-232 | the cache becomes the bounded insertion of the pages and the path now maps to them |
| PdfMerger.PdfMerger.ClearCache | src/core/converter/pdf_merger.py:268-270 | the page cache becomes empty |
| PdfMerger.PdfMerger.ValidatePdfs | src/core/converter/pdf_merger.py:63-92 | the loop returns exactly the inputs that pass the three checks, in input order |
| PdfMerger.PdfMerger.MergeWithPypdf2 | src/core/converter/pdf_merger.py:94-162 | the merger's cache becomes the one the page loop leaves; with no page collected the merge fails without writing, otherwise it is the write-and-verify step |
| PdfMerger.PdfMerger.MergeSimple | src/core/converter/pdf_merger.py:164-196 | the loop computes the copy fallback's result, and success implies the output exists |
| PdfMerger.PdfMerger.MergePdfs | src/core/converter/pdf_merger.py:22-61 | an empty list or no valid PDF fails with nothing changed; without PyPDF2 the copy fallback decides; with it the structural merge decides when it succeeds and the copy fallback otherwise; success implies the output exists; the outcome and the page cache are those of `MergeResult` |
| PdfMerger.MergeResultSpec | src/core/converter/pdf_merger.py:22-61 | a successful merge leaves the output in place, and an empty list fails at once with nothing changed |
| PdfMerger.PdfMerger.CleanupTempFiles | src/core/converter/pdf_merger.py:234-256 | the listed regular files are removed and nothing else, and the count is the number of files that disappeared; a pool of no threads changes nothing |
| PdfMerger.Permute | src/core/converter/pdf_merger.py:241-245 | the pool's completion order lists the same paths, each index once |
| PdfMerger.DeleteSeqRemoves | src/core/converter/pdf_merger.py:248-250 | deleting a list of paths one by one removes exactly those regular files and leaves directories alone |
| PdfMerger.DeleteSeqCounts | src/core/converter/pdf_merger.py:248-250 | the number of deletions reporting True equals the number of files that disappeared |
| PdfMerger.DeleteAll | src/core/converter/pdf_merger.py:248-250 | the deletion loop computes the one-by-one deletion |
| ImageProcessor.DeduplicatedSpec | src/core/converter/image_processor.py:31-35 | deduplication leaves each input path exactly once, and leaves a duplicate-free list untouched |
| ImageProcessor.ReverseSpec | src/core/converter/image_processor.py:46-47 | reversing keeps the same paths, keeps them distinct, and turns an ascending order into a descending one |
| ImageProcessor.SortKeepsPaths | src/core/converter/image_processor.py:39 | the stable sort by a total preorder yields a sorted list of the same paths, still distinct |
| ImageProcessor.OrderImagesSpec | src/core/converter/image_processor.py:31-52 | the list to group holds each input path once, sorted by lowered file name for "Alphabétique", in descending natural order for "Inversé", and in natural order otherwise |
| ImageProcessor.OptimalGroupSizeSpec | src/core/converter/image_processor.py:135-163 | the group size is at least 10; it is the float `base * 1.5` exactly when there are fewer than 3 workers, at most 1000 images and a per-worker share no smaller; otherwise an integer above 10 only within the per-worker share |
| ImageProcessor.PartitionSpec | src/core/converter/image_processor.py:56 | the groups concatenate back to the list; none is empty, none exceeds the group size, and all but the last are full |
| ImageProcessor.PartitionCount | src/core/converter/image_processor.py:56 | the number of groups is the ceiling of images over group size |
| ImageProcessor.SuccessThresholdSpec | src/core/converter/image_processor.py:101 | the success threshold is at least 1, is 1 below six groups, is a third of the groups rounded down from three on, and never exceeds the group count |
| ImageProcessor.GateResults | src/core/converter/image_processor.py:125-133 | no groups raise (division by zero); otherwise the results are discarded exactly when fewer groups succeeded than the threshold, and kept unchanged when not |
| ImageProcessor.VerifiedPassesMergerChecks | src/core/converter/image_processor.py:284-317 | a group PDF is verified exactly when it passes the merger's size and header checks and has `%%EOF` in its last 50 bytes |
| ImageProcessor.EofMarkerAtEnd | src/core/converter/image_processor.py:305-310 | a `%%EOF` written entirely within the last 50 bytes of a file of at least 50 bytes is found |
| ImageProcessor.TargetSizeSpec | src/core/converter/image_processor.py:353-374 | exactly the six named sizes resize; the paper sizes are portrait and the screen sizes landscape |
| ImageProcessor.ValidImagesMembers | src/core/converter/image_processor.py:207-219 | a path is kept exactly when it is an input that exists with a positive size |
| ImageProcessor.LoadedImagesBounded | src/core/converter/image_processor.py:221-251 | loading yields at most one image per path, keeps the image cache well formed within 50 entries, and only paths of the call are cached by it |
| ImageProcessor.CachedImageSkipped | src/core/converter/image_processor.py:224-245 | a path cached before the call (its image closed after an earlier save, so `.copy()` raises) gives no image and leaves the cache unchanged, whatever its file now is |
| ImageProcessor.ReloadedInCallServed | src/core/converter/image_processor.py:224-245 | a readable path listed twice in one call is decoded once and served again from the cache: the same image twice |
| ImageProcessor.FreshImageLoaded | src/core/converter/image_processor.py:236-245 | an uncached readable image is decoded and given the options |
| ImageProcessor.TempPathInjective | src/core/converter/image_processor.py:178 | different group numbers get different temporary PDF paths |
| ImageProcessor.GroupOutcomeSpec | src/core/converter/image_processor.py:165-205 | a group yields only its own temporary PDF, only once that file is verified, and only when some image in it is valid; no file other than that PDF appears or disappears |
| ImageProcessor.RunGroupsStep | src/core/converter/image_processor.py:104-123 | one more finished group adds nothing or exactly its own index and temporary PDF |
| ImageProcessor.RunGroupsSpec | src/core/converter/image_processor.py:104-123 | every collected pair names a group that ran and that group's own temporary PDF, each group at most once |
| ImageProcessor.RunGroupsCacheBounded | src/core/converter/image_processor.py:104-123 | running the groups keeps the image cache a well-formed dict of at most 50 entries |
| ImageProcessor.SortedTempsSpec | src/core/converter/image_processor.py:67-72 | sorting the results puts them in group order as a permutation, and the deduplication after it keeps exactly the same temporary PDF paths, once each |
| ImageProcessor.ImageProcessor.AddToCache | src/core/converter/image_processor.py:319-326 | the image cache becomes the bounded insertion, and the path maps to the image |
| ImageProcessor.ImageProcessor.ClearCache | src/core/converter/image_processor.py:328-330 | the image cache becomes empty |
| ImageProcessor.ImageProcessor.ValidateImages | src/core/converter/image_processor.py:207-219 | the loop keeps exactly the existing non-empty inputs, in order |
| ImageProcessor.ImageProcessor.LoadImages | src/core/converter/image_processor.py:221-251 | the loop computes the loaded images and the new image cache, serving only entries cached during the call, at most one image per path |
| ImageProcessor.ImageProcessor.ConvertGroup | src/core/converter/image_processor.py:165-205 | the method yields the group's outcome: its PDF or nothing, the file system and the image cache |
| ImageProcessor.ImageProcessor.ConvertGroupsParallel | src/core/converter/image_processor.py:97-133 | no positive worker count raises with nothing changed; otherwise the groups run in the pool's completion order and the success gate decides the result |
| ImageProcessor.ImageProcessor.ConvertImagesToPdf | src/core/converter/image_processor.py:26-95 | success, the file system, the image cache and the page cache are those of `ImagesToPdfOutcome` on the caches it starts with |
| ImageProcessor.ImagesToPdfOutcomeSpec | src/core/converter/image_processor.py:26-95 | a float group size or no positive worker count fails with nothing changed; when the gate discards the results or none succeeded, it fails before the merge with the page cache untouched; otherwise success, the file system and the page cache are what `merge_pdfs` gives on the distinct sorted temporary PDFs, and the image cache is cleared exactly on success; success needs an integer group size, images and an existing output |
| Extractor.ExtractDirShape | src/core/converter/extractor.py:26 | the extraction directory lies directly in the temporary directory and is named by the prefix and the eight hexadecimal characters |
| Extractor.ImageEntries | src/core/converter/extractor.py:67 | the entries kept are exactly the archive names that are image file names |
| Extractor.ExtractedSpec | src/core/converter/extractor.py:72-78 | extraction removes nothing; each new directory lies above an entry that could be read, and top-level entries create none; every readable entry is written unless its target is a directory or a file blocks a directory above it; nothing but entry targets is written |
| Extractor.EntryDirsSpec | src/core/converter/extractor.py:72-78 | the directories created above an entry lie below the extraction directory and differ from the entry's target; a top-level entry has none |
| Extractor.AvailableSpec | src/core/converter/extractor.py:83-90 | the listed paths are exactly the joined entry paths that now exist |
| Extractor.ArchiveResultMembers | src/core/converter/extractor.py:60-98 | the archive's result is duplicate-free and holds exactly the existing paths of image entries under the directory |
| Extractor.ArchiveResultComplete | src/core/converter/extractor.py:60-98 | every readable image entry is in the result unless a regular file blocks a directory above it |
| Extractor.ArchiveResultWrites | src/core/converter/extractor.py:60-98 | extraction removes nothing; its new directories lie below the extraction directory above an image entry, none when all image entries are top-level; every new file is an image entry under the directory |
| Extractor.ImageFilesIn | src/core/converter/extractor.py:174-176 | the walk's paths kept are exactly the regular files with an image name |
| Extractor.CbzExtractionSpec | src/core/converter/extractor.py:41-102 | a missing archive gives no image; any result is duplicate-free and lists existing paths inside the fresh `cbz2pdf_` directory |
| Extractor.CbrExtractionSpec | src/core/converter/extractor.py:19-39 | any result is duplicate-free and lists existing paths inside the fresh `cbr2pdf_` directory; once `unar` is accepted, it is exactly the image files under that directory |
| Extractor.Extractor.constructor | src/core/converter/base_converter.py:14-21 | the extractor keeps the temporary directory it is given |
| Extractor.Extractor.ExtractImages | src/core/converter/extractor.py:60-98 | the method computes the archive's result |
| Extractor.Extractor.ExtractEntries | src/core/converter/extractor.py:72-78 | the extraction loop computes the extracted file system, the directories above nested entries included |
| Extractor.Extractor.ListAvailable | src/core/converter/extractor.py:83-90 | the existence loop computes the listed paths |
| Extractor.Extractor.ExtractCbz | src/core/converter/extractor.py:41-102 | the method computes the CBZ extraction |
| Extractor.Extractor.ExtractWithUnar | src/core/converter/extractor.py:104-129 | `unar` is accepted exactly when it exits with 0 and leaves something under the directory; its file system is kept either way |
| Extractor.Extractor.ExtractCbrWithDir | src/core/converter/extractor.py:131-168 | an archive that is missing or cannot be opened gives nothing and changes nothing; otherwise the result is the archive's result |
| Extractor.Extractor.GetImageFiles | src/core/converter/extractor.py:170-188 | the result is duplicate-free and holds exactly the regular image files under the directory |
| Extractor.Extractor.ExtractCbr | src/core/converter/extractor.py:19-39 | the method computes the CBR extraction: `unar` first, the RAR reader as fallback |
| NativeConverter.MessagesTellOutcome | src/core/converter/native_converter.py:42-109 | the success message is recognisable as one, and none of the failure messages is |
| NativeConverter.SuccessMessageInjective | src/core/converter/native_converter.py:50 | different image counts give different success messages |
| NativeConverter.DefaultOutputPathSpec | src/core/converter/native_converter.py:111-142 | the default output keeps the input's stem with the new extension; it goes next to the input when its directory mentions "mangas" in any case, else into `~/Documents/Livres/mangas` when that exists, else next to the input; the directory then exists and no file changed; when the directory cannot be made, the fallback is the input with its suffix replaced |
| NativeConverter.ExtractDirsOfMembers | src/core/converter/native_converter.py:156-160 | the candidate directories are exactly the parents of images whose name holds `cbr2pdf_` or `cbz2pdf_` |
| NativeConverter.RemoveEmptyDirsSpec | src/core/converter/native_converter.py:162-167 | removing directories keeps every file, removes only listed directories that had nothing below them, and removes each listed empty one |
| NativeConverter.ExtractDirsVisited | src/core/converter/native_converter.py:156-162 | iterating the set of candidates visits exactly the extraction directories of the images |
| NativeConverter.CleanedUpFiles | src/core/converter/native_converter.py:144-170 | cleanup deletes exactly the listed images and adds no directory |
| NativeConverter.CleanedUpRemovesOnlyEmptyExtractDirs | src/core/converter/native_converter.py:144-170 | a directory that cleanup removes is the extraction directory of one of the images and is left empty |
| NativeConverter.CleanedUpRemovesEmptyExtractDirs | src/core/converter/native_converter.py:144-170 | an image's extraction directory that is empty once the images are deleted is removed |
| NativeConverter.ResolvedOutputKeepsFiles | src/core/converter/native_converter.py:36-37 | choosing the output path creates directories at most and changes no file |
| NativeConverter.MissingCbzHasNoImages | src/core/converter/native_converter.py:68-74 | a CBZ that does not exist yields no image whichever output is chosen |
| NativeConverter.NativeConverter.constructor | src/core/converter/native_converter.py:18-24 | the converter builds a fresh extractor, image processor and merger sharing its worker count and temporary directory |
| NativeConverter.NativeConverter.CleanupTempFiles | src/core/converter/native_converter.py:144-170 | the method computes the cleanup: delete the images, then the empty extraction directories |
| NativeConverter.NativeConverter.CollectExtractDirs | src/core/converter/native_converter.py:156-160 | the loop collects the extraction-directory candidates |
| NativeConverter.NativeConverter.RemoveDirs | src/core/converter/native_converter.py:162-167 | the loop removes the empty candidates |
| NativeConverter.NativeConverter.ConvertCbr | src/core/converter/native_converter.py:26-56 | success exactly when the message is the success message; an unusable output path is an error with nothing changed; no extracted image gives the CBR no-image message; otherwise success is exactly the render's success, a failure keeps the render's file system with the render message, and success reports the image count and leaves the render's file system cleaned of the images and their emptied extraction directories |
| NativeConverter.NativeConverter.ConvertCbz | src/core/converter/native_converter.py:58-96 | as for CBR with the ZIP reader and the CBZ message; success is exactly a successful render whose output exists, a render that succeeds without output gives the not-created message |
| NativeConverter.NativeConverter.RenderImages | src/core/converter/native_converter.py:44-52 | success exactly when the image processor succeeds (and, when checked, the output exists); a failed render gives the render message and a missing output the not-created message, both keeping the render's file system; success reports the image count and the file system is the render's with the images and emptied extraction directories removed; the caches are the render's |
| NativeConverter.NativeConverter.ConvertEpub | src/core/converter/native_converter.py:98-109 | EPUB conversion always fails with the not-implemented message |
| FileManager.NumberGroupShape | src/core/file_manager.py:380-392 | a number group built from literal and space tokens captures exactly one digit run |
| FileManager.TailCaptures | src/core/file_manager.py:380-392 | each of the three file-name patterns captures exactly two digit runs after the series |
| FileManager.MatchedMetadata | src/core/file_manager.py:381-395 | when a pattern matches, the series is the stripped lazy prefix and volume and chapter are the labels followed by the captured digits |
| FileManager.ExtractMetadataSpec | src/core/file_manager.py:371-398 | volume and chapter are both empty exactly when no pattern matches, and then the series is the whole stem; otherwise the series is the stripped text before the match and volume and chapter are digit labels, `Volume `/`Chapter ` exactly when the first pattern matched |
| FileManager.FilterSeqMembers | src/core/file_manager.py:420-443 | a comprehension keeps exactly the items that pass, each as often as before |
| FileManager.FilterSeqTwice | src/core/file_manager.py:418-443 | two filters in a row keep what their conjunction keeps, in order |
| FileManager.FilteredFilesSpec | src/core/file_manager.py:415-443 | the four filters keep, in order, exactly the files that satisfy every non-empty filter, matching case-insensitively as substrings |
| FileManager.FileOrderTotal | src/core/file_manager.py:446-453 | each sort key, ascending or reversed, is a total preorder |
| FileManager.ApplyFiltersSpec | src/core/file_manager.py:412-455 | the result holds each kept file as often as the input and nothing else, ordered by the key (descending when reversed), files with equal keys in their original order, and in input order for an unknown key |
| FileManager.WithSelected | src/core/file_manager.py:461-469 | every record keeps its fields and gets the given selection flag |
| FileManager.Inverted | src/core/file_manager.py:471-474 | every record keeps its fields and gets the opposite flag |
| FileManager.InvertTwice | src/core/file_manager.py:471-474 | inverting twice restores the list |
| FileManager.SelectAllSpec | src/core/file_manager.py:461-478 | after selecting all, every file is selected; after deselecting all, none is |
| FileManager.InvertedSelection | src/core/file_manager.py:471-478 | after inverting, a file is selected exactly when it was unselected before |
| FileManager.SelectAllFiles | src/core/file_manager.py:461-464 | the array's records all become selected and nothing else changes |
| FileManager.DeselectAllFiles | src/core/file_manager.py:466-469 | the array's records all become unselected and nothing else changes |
| FileManager.InvertSelection | src/core/file_manager.py:471-474 | the array's records get their selection flipped and nothing else changes |
| FileManager.ConvertSingleFileIgnoresOutcome | src/core/file_manager.py:574-590 | a file counts as converted exactly when its extension is supported, whatever the converter answers, since the answer is a non-empty tuple |
| FileManager.Run | src/core/file_manager.py:517-544 | handling the results in completion order keeps one record per file |
| FileManager.RunWithoutCallback | src/core/file_manager.py:517-531 | without a callback each handled file is counted once, as converted exactly when its extension is supported, and its record is updated; unhandled records stay as they were |
| FileManager.SupportedCountSet | src/core/file_manager.py:517-531 | the converted count does not depend on the completion order |
| FileManager.RunAllWithoutCallback | src/core/file_manager.py:505-556 | over every file, in any completion order, the counters add up to the file count and the converted ones are exactly the supported ones |
| FileManager.CallbackDoubleCounts | src/core/file_manager.py:533-544 | a callback that raises after a success makes that file count both as converted and as failed |
| FileManager.RunStaysAborted | src/core/file_manager.py:543-544 | once a callback raising inside the handler has ended the loop, later results change nothing |
| FileManager.FileManager.constructor | src/core/file_manager.py:22-51 | a new manager is idle with 5 workers, an empty file cache of capacity 100 and zeroed counters |
| FileManager.FileManager.SetMaxWorkers | src/core/file_manager.py:104-115 | the manager and its converter take the worker count, and the cache capacity becomes `max(50, workers * 10)` |
| FileManager.FileManager.AddToFileCache | src/core/file_manager.py:245-252 | the file cache becomes the bounded insertion, the name maps to the info, and a cache within capacity stays within it |
| FileManager.FileManager.ConvertFiles | src/core/file_manager.py:480-556 | while a conversion runs nothing changes; otherwise the counters restart at the file count; with no positive worker count the pool raises, no record changes, both counters stay 0 and the manager is idle again; otherwise the records and counters become the run's and the manager is idle again |
| FileManager.FileManager.RunParallelConversion | src/core/file_manager.py:505-556 | with no positive worker count nothing changes; otherwise the loop leaves the records and adds to the counters what the run in completion order gives |
| FileManager.FileManager.StopConversion | src/core/file_manager.py:645-651 | the manager is no longer converting |
| FileManager.FileManager.ClearCaches | src/core/file_manager.py:657-661 | the file cache becomes empty |
| FileFilters.SetFilterSpec | src/core/file_filters.py:27-30 | an unknown key changes nothing; setting the name or the volume changes that entry and no other; setting a value twice is the same as once |
| FileFilters.InitialFiltersKeepAll | src/core/file_filters.py:14-25 | the initial filters keep exactly the files whose size and date can be read |
| FileFilters.VolumeFilterWholeNumber | src/core/file_filters.py:119-123 | the volume filter needs a word boundary after the number: `vol.1` is not found in `vol.12` but is in `vol.1.cbz` and `vol.1` |
| FileFilters.LowerAll | src/core/file_filters.py:96 | every extension of the filter is lowered in place |
| FileFilters.FilteredAppend | src/core/file_filters.py:56-62 | filtering a concatenation filters each part |
| FileFilters.FilteredSingle | src/core/file_filters.py:58-60 | a single path is kept exactly when it passes |
| FileFilters.FilteredMembers | src/core/file_filters.py:46-108 | a path is kept exactly when it is an input that passes every enabled filter, as often as it occurs in the input |
| FileFilters.FileFilter.constructor | src/core/file_filters.py:14-25 | a new filter holds the initial settings |
| FileFilters.FileFilter.SetFilterValue | src/core/file_filters.py:27-30 | the settings become those with the one filter set |
| FileFilters.FileFilter.ClearFilters | src/core/file_filters.py:32-44 | the settings return to the initial ones |
| FileFilters.FileFilter.ApplyFilters | src/core/file_filters.py:46-62 | the loop returns the paths that pass, in input order |
| FileFilters.TagNumberLeading | src/core/file_filters.py:164-183 | the number read after a tag is the value of the whole digit run that follows it |
| FileFilters.TagNumberExamples | src/core/file_filters.py:164-183 | `vol.12 ch.3` has volume 12, and a tag with no digits after it counts as 0 |
| FileFilters.SortRelationTotal | src/core/file_filters.py:150-183 | each sort key, ascending or reversed, is a total preorder |
| FileFilters.SortFilesSpec | src/core/file_filters.py:137-183 | an unknown key returns the list unchanged; sorting by size or date raises exactly when some file cannot be stat'ed; otherwise the result is a sorted permutation that keeps equal-keyed files in their order |
| FileFilters.WordRun | src/core/file_filters.py:201 | the leading run of word characters is maximal |
| FileFilters.Words | src/core/file_filters.py:201 | every word found is a non-empty run of word characters |
| FileFilters.WordsSplit | src/core/file_filters.py:201 | a word followed by a non-word character is found, then the words of the rest |
| FileFilters.WordsWhole | src/core/file_filters.py:201 | a single word is found as itself |
| FileFilters.AddWordsMembers | src/core/file_filters.py:202-205 | indexing a file's words adds exactly those words as keys, each listing the file besides what it listed |
| FileFilters.IndexedMembers | src/core/file_filters.py:192-205 | the index holds exactly the words of the lowered file names, each listing exactly the files whose name contains it |
| FileFilters.IndexHitsMembers | src/core/file_filters.py:226-229 | the index hits are exactly the files listed under some query word |
| FileFilters.DirectHitsMembers | src/core/file_filters.py:231-235 | the direct hits are exactly the files whose lowered name contains the lowered query |
| FileFilters.SearchIndexed | src/core/file_filters.py:225-229 | with an index, a file is found exactly when it was indexed and shares a word with the query |
| FileFilters.SearchDirect | src/core/file_filters.py:230-235 | without an index, a file is found exactly when it is one of the given files and its name contains the query, ignoring case |
| FileFilters.SearchEngine.constructor | src/core/file_filters.py:189-190 | a new engine has an empty index |
| FileFilters.SearchEngine.BuildIndex | src/core/file_filters.py:192-205 | the index is rebuilt from scratch from the given files |
| FileFilters.SearchEngine.IndexFile | src/core/file_filters.py:196-205 | one file's words are added to the index |
| FileFilters.SearchEngine.Search | src/core/file_filters.py:207-237 | an empty query returns the given files (or none); otherwise each hit once, and exactly the hits |
| FileSelection.IndexOf | src/core/file_selection.py:38-39 | `list.index` finds the first occurrence, and finds nothing exactly when the item is absent |
| FileSelection.ToggleAllMembers | src/core/file_selection.py:50-56 | after inverting, a path is selected exactly when it was selected and listed an even number of times, or unselected and listed an odd number of times |
| FileSelection.InvertTwice | src/core/file_selection.py:50-56 | inverting twice over the same list restores the selection |
| FileSelection.InvertIsSymmetricDifference | src/core/file_selection.py:50-56 | over a duplicate-free list, inverting is the symmetric difference with the listed paths |
| FileSelection.RangeBounds | src/core/file_selection.py:38-44 | the range exists exactly when both endpoints are listed, lies inside the list, and covers exactly the positions between the two first occurrences, in either order |
| FileSelection.RangeOfMissing | src/core/file_selection.py:35-48 | a missing endpoint selects nothing (the ValueError is swallowed); otherwise both endpoints are selected |
| FileSelection.RangeOfHolds | src/core/file_selection.py:44-45 | every path between the two endpoints' first positions is selected |
| FileSelection.RangeOfOnly | src/core/file_selection.py:44-45 | only listed paths are added, and only when both endpoints are listed |
| FileSelection.RangeOfSymmetric | src/core/file_selection.py:41-42 | swapping the endpoints selects the same paths, all from the list |
| FileSelection.FileSelection.constructor | src/core/file_selection.py:15-18 | a new selection is empty with no group |
| FileSelection.FileSelection.ToggleSelection | src/core/file_selection.py:20-25 | the path's membership flips and the groups are untouched |
| FileSelection.FileSelection.SelectAll | src/core/file_selection.py:27-29 | the given paths are added to the selection and the groups are untouched |
| FileSelection.FileSelection.DeselectAll | src/core/file_selection.py:31-33 | the selection becomes empty and the groups are untouched |
| FileSelection.FileSelection.SelectRange | src/core/file_selection.py:35-48 | the range is added to the selection and the groups are untouched |
| FileSelection.FileSelection.AddSpan | src/core/file_selection.py:44-45 | the loop adds exactly the paths at the positions from the low to the high index |
| FileSelection.FileSelection.InvertSelection | src/core/file_selection.py:50-56 | the loop toggles each listed path in turn |
| FileSelection.FileSelection.GetSelectedFiles | src/core/file_selection.py:58-60 | the list holds every selected path exactly once |
| FileSelection.FileSelection.GetSelectionCount | src/core/file_selection.py:62-64 | the count is the number of selected paths |
| FileSelection.FileSelection.CreateGroup | src/core/file_selection.py:66-72 | the group gets the given files, or when none are given the selected paths once each; other groups and the selection are untouched; a new name goes last in the group order and an existing one keeps its place |
| FileSelection.FileSelection.GetGroup | src/core/file_selection.py:74-76 | an unknown group name gives the empty list |
| FileSelection.FileSelection.DeleteGroup | src/core/file_selection.py:78-81 | the group is removed and its name leaves the list of names, the others keeping their order; an unknown name changes nothing |
| FileSelection.RemoveNameSpec | src/core/file_selection.py:78-85 | removing a name from the ordered names drops its one occurrence and keeps the rest in order; an absent name changes nothing |
| FileSelection.FileSelection.GetAllGroups | src/core/file_selection.py:83-85 | the names listed are the groups' names, each once |
| DestinationUtils.OutputDirectoryModes | src/utils/destination_utils.py:9-52 | the source's directory, `~/Desktop` or `~/Documents` for the three named modes; otherwise the custom folder unless it is empty or the placeholder, then the saved path when it exists, then the source's directory |
| DestinationUtils.ReplaceAllChars | src/utils/destination_utils.py:67 | `str.replace` introduces no character that neither the text nor the replacement holds |
| DestinationUtils.ReplaceAllAbsent | src/utils/destination_utils.py:67 | replacing a non-empty pattern that does not occur leaves the text unchanged |
| DestinationUtils.ReplaceAllEmptyLength | src/utils/destination_utils.py:67 | replacing the empty string inserts the replacement before every character and at the end |
| DestinationUtils.ReplaceFinalSuffix | src/utils/destination_utils.py:67 | a suffix that occurs only at the end of the name is replaced there, and only there |
| DestinationUtils.OutputFilename | src/utils/destination_utils.py:55-71 | the output file name never holds a path separator |
| DestinationUtils.AutoRenamedIsPdf | src/utils/destination_utils.py:61-64 | with auto-rename the output name is the source's stem with the suffix `.pdf` |
| DestinationUtils.KeptNameSwapsSuffix | src/utils/destination_utils.py:65-67 | keeping the name swaps a suffix that occurs only at its end for `.pdf` |
| DestinationUtils.KeptNameWithoutSuffix | src/utils/destination_utils.py:65-67 | keeping the name of a file without suffix replaces the empty string, interleaving `.pdf` between its characters (`abc` gives `.pdfa.pdfb.pdfc.pdf`) |
| DestinationUtils.PrefixWithout | src/utils/destination_utils.py:90-91 | the text before the first occurrence of the character, which it does not contain |
| DestinationUtils.LetterRun | src/utils/destination_utils.py:92 | the leading run of ASCII letters is maximal |
| DestinationUtils.FirstLetterRun | src/utils/destination_utils.py:92 | the first run of letters is non-empty and all letters, and there is none exactly when the stem has no letter |
| DestinationUtils.SeriesPatternsInEffect | src/utils/destination_utils.py:89-100 | an empty stem matches no pattern; otherwise the text before the first underscore wins, or the text before the first dash when the stem starts with an underscore, so the letter pattern never wins |
| DestinationUtils.CreateSubfolderKeepsFiles | src/utils/destination_utils.py:74-112 | creating the subfolder only adds directories and gives a non-empty directory; without the option the output directory is returned and nothing changes |
| DestinationUtils.CreateSubfolderPlacement | src/utils/destination_utils.py:102-106 | a new subfolder sits directly in the output directory, is named after the series and exists afterwards |
| DestinationUtils.SeriesHasNoSlash | src/utils/destination_utils.py:97-99 | a series name found in a stem holds no path separator |
| DestinationUtils.LongerShrinks | src/utils/destination_utils.py:138-142 | each longer candidate leaves fewer existing longer paths, so the renaming loop ends |
| DestinationUtils.Renamed | src/utils/destination_utils.py:139-141 | each rename lengthens the name and adds no separator |
| DestinationUtils.RenamedAccumulates | src/utils/destination_utils.py:139-141 | each rename keeps the suffix and appends `_counter` to the stem of the previous candidate, so counters accumulate (`a_1_2.pdf`) |
| DestinationUtils.FreePathSpec | src/utils/destination_utils.py:135-142 | the renaming loop ends on a free path in the destination folder, and keeps the name when it is already free |
| DestinationUtils.FinalOutputPathSpec | src/utils/destination_utils.py:115-150 | only directories are created; when the folder cannot be made the fallback is the stem with `.pdf` next to the source; otherwise the path lies in the folder, which exists, and is the plain name when overwriting and a free path when not |
| DestinationUtils.FindSeriesName | src/utils/destination_utils.py:95-100 | the pattern loop with its `break` finds the series name |
| DestinationUtils.CreateSubfolderIfNeeded | src/utils/destination_utils.py:74-112 | the method computes the subfolder step |
| DestinationUtils.GetFinalOutputPath | src/utils/destination_utils.py:115-150 | the loop computes the final output path |
| MetadataManager.FullTailShape | src/core/metadata_manager.py:37 | the full pattern captures volume, two chapter numbers and pages as digit runs, then an author free of `)` and a scan group free of `]` |
| MetadataManager.TomeChaptersShape | src/core/metadata_manager.py:39 | the `T..Ch..-..` pattern captures three digit runs |
| MetadataManager.VolChaptersShape | src/core/metadata_manager.py:41 | the `Vol...Ch...-..` pattern captures three digit runs |
| MetadataManager.ShortTailsShape | src/core/metadata_manager.py:43-45 | the `T..` and `Vol...` patterns capture one digit run each |
| MetadataManager.MangaTailsShape | src/core/metadata_manager.py:35-46 | there are five patterns and each captures the groups listed for it |
| MetadataManager.MangaTailsCapture | src/core/metadata_manager.py:52-54 | every pattern captures at least one group after the title, so the `len(groups) >= 2` test always passes |
| MetadataManager.FirstMatch | src/core/metadata_manager.py:50-54 | a match found has the title and at least one more group |
| MetadataManager.FirstMatchSpec | src/core/metadata_manager.py:50-62 | no match exactly when no pattern matches; otherwise the result is the first pattern that matches, with its groups |
| MetadataManager.InfoOfMatch | src/core/metadata_manager.py:55-62 | the title is the stripped lazy prefix and the volume a digit run; chapters `a-b` come from the first three patterns only; pages, author and scan group from the first only |
| MetadataManager.ExtractMangaInfoSpec | src/core/metadata_manager.py:31-69 | no matching pattern gives the title-only record of the whole stem; otherwise the volume is a digit run, chapters are present exactly when one of the first three patterns matches, and pages, author and scan group exactly when the full pattern matches |
| MetadataManager.ChapterRangeOf | src/core/metadata_manager.py:58 | two digit runs joined by a dash form a chapter range |
| MetadataManager.FallbackSpec | src/core/metadata_manager.py:192-197 | the merged title or synopsis is the current value or the MangaDex one; it is non-empty exactly when either is; merging the same MangaDex value twice changes nothing |
| MetadataManager.DexAuthorsSpec | src/core/metadata_manager.py:205-209 | the MangaDex names are exactly those of the `author` relationships, at most one per relationship |
| MetadataManager.CollectDexAuthors | src/core/metadata_manager.py:206-209 | the loop collects the author relationships' names in order |
| MetadataManager.MergeMangaInfo | src/core/metadata_manager.py:172-218 | no source gives the empty dict; MyAnimeList fills title, synopsis, genres and authors; MangaDex fills an empty title or synopsis and missing authors, and sets status, year and content rating; the source names whichever contributed |
| MetadataManager.SourceCases | src/core/metadata_manager.py:185-213 | the source entry is absent, `MyAnimeList`, `MangaDex` or `MangaDex + MyAnimeList` exactly as the two sources are present |
| MetadataManager.AuthorNamesCount | src/core/metadata_manager.py:271-279 | one name per author except the dicts with neither a first nor a last name |
| MetadataManager.SkippedAuthors | src/core/metadata_manager.py:276 | no more authors are skipped than there are |
| MetadataManager.CollectAuthorNames | src/core/metadata_manager.py:271-279 | the loop collects the author names in order |
| MetadataManager.CollectGenreNames | src/core/metadata_manager.py:295-300 | the loop collects the genre names in order |
| MetadataManager.Subject | src/core/metadata_manager.py:285-290 | the subject is at most 500 characters: a synopsis that fits is kept, a longer one is cut to its first 497 characters followed by `...` |
| MetadataManager.StripJunkPrefix | src/core/metadata_manager.py:307 | stripping `, ` characters removes a leading separator in front of clean text |
| MetadataManager.AddKeywordClean | src/core/metadata_manager.py:306-322 | adding a clean entry appends it after `, `, or gives it alone when there were no keywords |
| MetadataManager.JoinClean | src/core/metadata_manager.py:303 | joining clean entries gives clean non-empty text |
| MetadataManager.AddToJoin | src/core/metadata_manager.py:306-322 | adding an entry to the joined keywords is joining the longer list |
| MetadataManager.AddOptionalJoin | src/core/metadata_manager.py:306-322 | adding an optional entry is joining the list extended by it |
| MetadataManager.KeywordsJoin | src/core/metadata_manager.py:293-322 | when every entry is clean, the keywords are the genres, volume, chapters, status and year entries that are present, joined with `, ` |
| MetadataManager.StripJunkClean | src/core/metadata_manager.py:307 | `strip(', ')` leaves no comma or space at either end |
| MetadataManager.PrepareMetadata | src/core/metadata_manager.py:258-338 | the title is the record's, else the file's, when non-empty; the author is the names joined with `; ` when there is one; the subject is the cut synopsis; the keywords are built as described; the creator is fixed; the source names the scan group when there is one |
| MetadataManager.BuildKeywords | src/core/metadata_manager.py:293-322 | the assignments build the keyword text |
| ConversionManager.AppendOption | src/core/conversion_manager.py:35-61 | one option step appends the option's name (and its value for `--output-dir` and `--resize`) exactly when the option is on or non-empty, and nothing otherwise |
| ConversionManager.BuildCommand | src/core/conversion_manager.py:15-66 | the command built step by step is the command `CommandSpec` characterises |
| ConversionManager.CommandSpec | src/core/conversion_manager.py:15-66 | an unknown tool type gives None; a known one gives `./` plus its script, then the options, then the file; the options read back as exactly the settings given, so two option sets give the same arguments exactly when their settings agree |
| ConversionManager.FlagNamesDistinct | src/core/conversion_manager.py:35-61 | no two options are written under the same name |
| ConversionManager.ParseEmitAll | src/core/conversion_manager.py:35-61 | reading the emitted arguments back, option by option in the order they are appended, recovers each option's setting |
| ConversionManager.SameSettingsSameArgs | src/core/conversion_manager.py:35-61 | options with the same settings emit the same arguments |
| ConversionManager.ProcessMetadata | src/core/conversion_manager.py:68-97 | the path is unchanged when neither metadata option is on or a step raises; it changes exactly when renaming is on and yields a non-empty different path, which is then the result |
| ConversionManager.ConvertSingleFileSpec | src/core/conversion_manager.py:99-132 | a file converts exactly when its tool type is known and its script exits with 0; the metadata step never changes the answer |
| ConversionManager.RunSequential | src/core/conversion_manager.py:134-171 | the loop gives the tally of the files handled in list order with the "Converting" message, or an exception when the callback raises on an error message |
| ConversionManager.RunParallel | src/core/conversion_manager.py:173-222 | no positive worker count raises (no result); otherwise the loop gives the tally of the files handled in the completion order, without the "Converting" message |
| ConversionManager.FoldStaysNone | src/core/conversion_manager.py:166-169 | once an exception escapes, the run ends with it |
| ConversionManager.FoldQuiet | src/core/conversion_manager.py:147-171 | with a callback that never raises, every handled file adds one to exactly one counter |
| ConversionManager.OkCountSet | src/core/conversion_manager.py:205-216 | the number of converted files is the size of the set of converted indices, whatever the order |
| ConversionManager.TallyWithoutRaising | src/core/conversion_manager.py:134-222 | with a callback that never raises, completed plus failed is the number of files and completed is the number of files with a known tool type whose script exits with 0, in any completion order |
| ConversionManager.SequentialMatchesParallel | src/core/conversion_manager.py:134-222 | with a callback that never raises, the sequential and the parallel runner give the same tally |
| ConversionManager.CallbackDoubleCounts | src/core/conversion_manager.py:157-169 | a callback raising on the success message makes a converted file count both as completed and as failed |
| PerformanceOptimizer.WorkerCountBounds | src/utils/performance_optimizer.py:63-85 | with a processor there is at least one worker; never more than the processors (twice for a scan) nor the cap; below 8 GB a conversion gets at most 4; more memory never gives fewer workers |
| PerformanceOptimizer.LargeFilesMonotone | src/utils/performance_optimizer.py:280-327 | a bigger file never gets a bigger batch or more workers, never a smaller memory limit, and always at least one of each |
| PerformanceOptimizer.KeptAppend | src/utils/performance_optimizer.py:152-188 | the results of two runs of items are those of the first followed by those of the second |
| PerformanceOptimizer.KeptSpec | src/utils/performance_optimizer.py:178-188 | every result comes from an item, at most one per item, and every item whose processor returns a value contributes it; items that return None or raise contribute nothing |
| PerformanceOptimizer.ProcessBatch | src/utils/performance_optimizer.py:178-188 | the loop keeps the non-None results of one batch, in order, skipping the items that raise |
| PerformanceOptimizer.FlattenCons | src/utils/performance_optimizer.py:160-172 | concatenating a batch in front of the others is prepending its items |
| PerformanceOptimizer.BatchesSpec | src/utils/performance_optimizer.py:160 | the batches put back together are the items, in order, and each holds between one and `batch_size` items |
| PerformanceOptimizer.ParallelBatchProcessing | src/utils/performance_optimizer.py:152-176 | a batch size of 0 or no positive worker count raises; otherwise a negative batch size gives no result and a positive one gives every non-None result in item order, independent of the batching |
| PerformanceOptimizer.StoredThenFound | src/utils/performance_optimizer.py:190-224 | an entry stored at time t with lifetime ttl is found while at most ttl seconds have passed, and not after |
| PerformanceOptimizer.ExpiredStays | src/utils/performance_optimizer.py:221 | an expired entry stays expired later on |
| PerformanceOptimizer.Optimizer.constructor | src/utils/performance_optimizer.py:29-33 | the cache starts empty |
| PerformanceOptimizer.Optimizer.CacheOptimization | src/utils/performance_optimizer.py:190-212 | the cache stays within 100 entries; the new entry is stored with the current time; below the limit nothing else changes; at the limit the cache becomes its unexpired entries, less one of the oldest when still full, plus the new entry |
| PerformanceOptimizer.Optimizer.DropExpired | src/utils/performance_optimizer.py:197-202 | the loop leaves exactly the unexpired entries |
| PerformanceOptimizer.Optimizer.GetCachedData | src/utils/performance_optimizer.py:214-224 | the answer is the lookup; an expired entry is removed and nothing else changes |
| PerformanceOptimizer.Optimizer.ClearCache | src/utils/performance_optimizer.py:329-332 | the cache becomes empty |
| PerformanceOptimizer.Oldest | src/utils/performance_optimizer.py:205-206 | the key found is cached and its timestamp is no later than any other |
| Patterns.MatchLazySpec | src/core/file_manager.py:380-393 | a whole-pattern match's first group is the shortest non-empty newline-free prefix after which the tail matches, and there is no match exactly when no such prefix lets the tail match |
| Patterns.MatchLazyGroups | src/core/metadata_manager.py:50-54 | the groups of a match are a prefix of the name followed by one group per capturing token, each fitting that token |
| Patterns.DigitsCaptured | src/core/file_manager.py:380-393 | a captured `(\d+)` group is the whole digit run at its position, which is non-empty and not followed by a digit |
| Patterns.MatchAtFits | src/core/metadata_manager.py:35-46 | a matched tail yields one group per capturing token, each fitting it |
| FileManager.VolumeChapterShape | src/core/file_manager.py:380 | the `Volume..Chapter` pattern captures two digit runs |
| FileManager.VolChShape | src/core/file_manager.py:386 | the `Vol..Ch..` pattern captures two digit runs |
| FileManager.NumbersShape | src/core/file_manager.py:392 | the `NN-NNN` pattern captures two digit runs |
| FileManager.MatchedGroups | src/core/file_manager.py:381-395 | a match of one of these patterns yields the series prefix and two digit runs |
| FileManager.LabelledDigits | src/core/file_manager.py:383-395 | a label followed by a digit run is recognised as that label |
| FileManager.GuardedFilter | src/core/file_manager.py:425-440 | a filter skipped for an empty value is the same as one applied with it |
| Sorting.SortBySortedPerm | src/core/file_manager.py:446-453 | the stable sort used for `sort`/`sorted` gives an ordered permutation of its input under any total preorder |
| Sorting.SortByStable | src/core/file_filters.py:150-163 | items that compare equal keep their relative order, as Python's sort guarantees |
| Sorting.FlipTotalPreorder | src/core/file_manager.py:446-453 | `reverse=True` orders by the flipped relation, which is again a total preorder |
| PyCompare.LexStrictTotalOrder | src/core/converter/base_converter.py:74-78 | Python's list comparison over a strict total order is again one |
| PyCompare.StrLtStrictTotalOrder | src/core/file_filters.py:150-151 | string comparison is a strict total order |
| PyCompare.ByKeyTotalPreorder | src/core/file_filters.py:150-163 | sorting by a key with a strict total order compares by a total preorder |
| Common.StripEnds | src/core/file_manager.py:383 | `strip()` leaves no whitespace at either end, and gives the empty string exactly for all-whitespace text |
| Common.StripIsSlice | src/core/file_manager.py:383 | `strip()` gives a contiguous piece of its input |
| Common.SuffixOfDotted | src/utils/destination_utils.py:65-67 | a name `stem.ext` has suffix `.ext` and stem `stem` |
| Common.StemSuffix | src/utils/destination_utils.py:65-67 | a name is its stem followed by its suffix |
| PdfMerger.PdfMerger.constructor | src/core/converter/pdf_merger.py:17-20 | the merger starts with an empty page cache and the given worker count |
| ImageProcessor.ImageProcessor.constructor | src/core/converter/image_processor.py:16-24 | the processor starts with an empty image cache and its own merger, fresh, with the same worker count |

## Left out

- The graphical interfaces, the command-line entry points, logging and the settings and configuration files are not part of this model; `FILE_FORMATS` of `src/core/config.py` is the constant `ConversionManager.FileFormats`.
- Thread pools and `asyncio`: concurrency is a sequential fold over a completion order given as a parameter (any permutation of the jobs); interleavings inside a job are not modelled.
- Pillow, PyPDF2, `zipfile`/`rarfile`, `unar`, `subprocess`, `shutil` and `uuid`: their results are parameters (images and pages are opaque values, exit codes and readability are inputs, the 8 random hex digits of a temporary directory are an input).
- Image decoding, resizing pixels and PDF rendering: only the target-size table of `_resize_image` is modelled.
- `time.sleep`, `time.time` and `datetime.now`: the clock is a parameter; the creation date of `_prepare_metadata` is not modelled.
- The MyAnimeList and MangaDex HTTP calls and `exiftool`: their parsed answers are parameters of `merge_manga_info`; writing the metadata is not modelled.
- MetadataManager.PrepareMetadata: the rating entry (a float mean formatted with one decimal) is not modelled, because floating-point formatting is out of scope.
- Regular expressions are modelled only for the fixed patterns of the core, over ASCII `\s`, `\d` and `\w`; `str.lower` and `str.strip` are ASCII only.
- `SearchEngine.search_advanced` (an arbitrary user regular expression) is not modelled, because it needs a general regular-expression engine.
- Dicts with known keys are typed records, so the `KeyError` paths they would raise do not exist in the model; the `except` around the sort in `FileManager.apply_filters` is therefore unreachable and not modelled.
- The file manager's directory scan, its scan cache, `_count_pages` and `_create_file_info`, and the post-processing of converted files (`_post_process_converted_file`, `_enrich_pdf_metadata`) read archives or the file system only; they are not modelled.
- `rename_file_with_metadata` and `edit_pdf_metadata` are parameters of `ConversionManager.ProcessMetadata`; the existence check of the output PDF in `convert_single_file` only decides whether that step runs and does not change the result.
- `cache_optimization` picks an oldest entry by `min` over the dict; when timestamps tie, the model's choice may differ from Python's first-in-dict-order choice (any entry with the smallest timestamp can go).
- The performance statistics, `psutil`, `numba` and memory monitoring of the performance optimizer are not modelled.
- The saved destination of `path_config.json` is a parameter of `DestinationUtils.OutputDirectory`; reading the file is not modelled.
- `FileSelection.save_groups` and `load_groups` (JSON persistence) are not modelled.
- `pathlib` normalisation (`..`, repeated separators, `~` expansion) is not modelled: paths are `/`-joined strings.
- FileFilters.FileFilter.ApplyFilters: the volume and chapter filters are matched as literal text after `vol.`/`ch.`, while `_matches_manga_filters` interpolates them into a regular expression unescaped; a value holding regular-expression syntax therefore matches more than the model says (`1.5` also matches `vol.1x5`), and one that is not a valid expression raises, which `_matches_filters` catches, so every file is rejected. Values made of letters, digits, spaces and `-` match the same in both.
- FileFilters.HasTagged: the value is taken literally, not as a regular expression (see the line above); like the source, the value is not lowered, so a value with an upper-case letter never matches the lowered name.
- Extractor.ExtractEntry: an entry whose bytes cannot be read leaves nothing behind, though `zipfile` may already have created its directories or the start of its file; when a regular file blocks a directory above an entry, the model creates none of the entry's directories, though `os.makedirs` first creates those above the blocking file; the stripping of absolute and `..` entry names by `zipfile` and `rarfile` is not modelled.
- The dependency probes, `mkdir` and `set_start_method` of `BaseConverter.__init__` are not modelled; the constructors take the worker count and the temporary directory.
