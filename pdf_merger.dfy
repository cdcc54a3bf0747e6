/** `PDFMerger`: validates the temporary PDFs, concatenates their pages with PyPDF2
    (served from a page cache when possible), falls back to copying the largest
    input, and deletes temporary files. */
module PdfMerger {
  import opened Common
  import opened FifoCache

  /** The bytes `%PDF`. */
  const PdfMagic: seq<byte> := [37, 80, 68, 70]
  /** Files under 1000 bytes are rejected. */
  const MinPdfSize: nat := 1000
  const PageCacheCapacity: nat := 20
  /** More paths than this are deleted through a thread pool. */
  const PooledCleanupThreshold: nat := 10

  /** `f.read(4) == b'%PDF'`. */
  predicate HasPdfHeader(data: seq<byte>) {
    |data| >= 4 && data[..4] == PdfMagic
  }

  /** The per-file test of `_validate_pdfs` and of `_verify_output_file`: a regular
      file of at least 1000 bytes that starts with `%PDF`. */
  predicate PassesPdfChecks(fs: FileSystem, p: Path) {
    p in fs.files && |fs.files[p]| >= MinPdfSize && HasPdfHeader(fs.files[p])
  }

  /** PyPDF2 as functions of bytes: reading a file's pages (None when the reader
      raises) and serialising a writer holding some pages (None when it raises). */
  datatype PdfLibrary = PdfLibrary(read: seq<byte> -> Option<seq<Page>>, write: seq<Page> -> Option<seq<byte>>)

  // ------------------------------------------------------------ validation

  /** The paths `_validate_pdfs` keeps, in input order. */
  function ValidPdfs(fs: FileSystem, paths: seq<Path>): seq<Path> {
    if paths == [] then []
    else ValidPdfs(fs, paths[..|paths| - 1])
         + (if PassesPdfChecks(fs, paths[|paths| - 1]) then [paths[|paths| - 1]] else [])
  }

  /** Exactly the inputs that pass the checks survive, and no new path appears. */
  lemma {:induction false} ValidPdfsMembers(fs: FileSystem, paths: seq<Path>)
    ensures forall p :: p in ValidPdfs(fs, paths) <==> p in paths && PassesPdfChecks(fs, p)
    ensures |ValidPdfs(fs, paths)| <= |paths|
  {
    if paths != [] {
      ValidPdfsMembers(fs, paths[..|paths| - 1]);
      assert paths == paths[..|paths| - 1] + [paths[|paths| - 1]];
    }
  }

  lemma {:induction false} ValidPdfsNoDup(fs: FileSystem, paths: seq<Path>)
    requires NoDup(paths)
    ensures NoDup(ValidPdfs(fs, paths))
  {
    if paths != [] {
      var init := paths[..|paths| - 1];
      ValidPdfsNoDup(fs, init);
      ValidPdfsMembers(fs, init);
      if PassesPdfChecks(fs, paths[|paths| - 1]) {
        assert paths[|paths| - 1] !in init;
        NoDupSnoc(ValidPdfs(fs, init), paths[|paths| - 1]);
      }
    }
  }

  // ------------------------------------------------------- structural merge

  /** What the page loop has produced so far: the pages added to the writer and the
      page cache. */
  datatype MergeState = MergeState(pages: seq<Page>, cache: Cache<Path, seq<Page>>)

  /** The page loop of `_merge_with_pypdf2_optimized`: a cached path contributes its
      cached pages; otherwise a readable file with at least one page contributes
      its pages, which are then cached; anything else is skipped. */
  function CollectPages(fs: FileSystem, paths: seq<Path>, cache: Cache<Path, seq<Page>>, lib: PdfLibrary): MergeState
  {
    if paths == [] then MergeState([], cache)
    else
      var st := CollectPages(fs, paths[..|paths| - 1], cache, lib);
      var p := paths[|paths| - 1];
      if p in st.cache.entries then MergeState(st.pages + st.cache.entries[p], st.cache)
      else if p !in fs.files then st
      else match lib.read(fs.files[p])
        case None => st
        case Some(ps) =>
          if ps == [] then st else MergeState(st.pages + ps, Insert(st.cache, PageCacheCapacity, p, ps))
  }

  /** The concatenation, in list order, of the pages of every readable non-empty
      input, read afresh. */
  function FreshPages(fs: FileSystem, paths: seq<Path>, lib: PdfLibrary): seq<Page> {
    if paths == [] then []
    else
      var p := paths[|paths| - 1];
      FreshPages(fs, paths[..|paths| - 1], lib)
      + (if p in fs.files && lib.read(fs.files[p]).Some? then lib.read(fs.files[p]).value else [])
  }

  /** Every cached entry holds what reading its file now yields. */
  ghost predicate CacheAgrees(fs: FileSystem, cache: Cache<Path, seq<Page>>, lib: PdfLibrary) {
    forall q :: q in cache.entries ==> q in fs.files && lib.read(fs.files[q]) == Some(cache.entries[q])
  }

  /** While the cache agrees with the files, the merge concatenates exactly the
      pages of the readable inputs in list order, and the cache keeps agreeing. */
  lemma {:induction false} CollectPagesIsFresh(fs: FileSystem, paths: seq<Path>, cache: Cache<Path, seq<Page>>, lib: PdfLibrary)
    requires CacheAgrees(fs, cache, lib) && FifoCache.Valid(cache)
    ensures CollectPages(fs, paths, cache, lib).pages == FreshPages(fs, paths, lib)
    ensures CacheAgrees(fs, CollectPages(fs, paths, cache, lib).cache, lib)
    ensures FifoCache.Valid(CollectPages(fs, paths, cache, lib).cache)
  {
    if paths != [] {
      var init, p := paths[..|paths| - 1], paths[|paths| - 1];
      CollectPagesIsFresh(fs, init, cache, lib);
      var st := CollectPages(fs, init, cache, lib);
      if p !in st.cache.entries && p in fs.files {
        match lib.read(fs.files[p]) {
          case None =>
          case Some(ps) =>
            if ps != [] {
              InsertStores(st.cache, PageCacheCapacity, p, ps);
              var c := Insert(st.cache, PageCacheCapacity, p, ps);
              forall q | q in c.entries ensures q in fs.files && lib.read(fs.files[q]) == Some(c.entries[q]) {
                if q != p { assert q in st.cache.entries; }
              }
            }
        }
      }
    }
  }

  /** A cached entry is served whatever the file at that path now holds: the
      temporary names `group_N.pdf` are reused by every conversion and the page
      cache is never cleared by the pipeline, so a later merge can receive the
      pages of an earlier one. */
  lemma CachedPagesServedRegardlessOfFile(fs: FileSystem, p: Path, cache: Cache<Path, seq<Page>>, lib: PdfLibrary)
    requires p in cache.entries
    ensures CollectPages(fs, [p], cache, lib).pages == cache.entries[p]
  {
    assert [p][..0] == [];
  }

  lemma {:induction false} CollectPagesKeepsCacheValid(fs: FileSystem, paths: seq<Path>, cache: Cache<Path, seq<Page>>, lib: PdfLibrary)
    requires FifoCache.Valid(cache) && Size(cache) <= PageCacheCapacity
    ensures FifoCache.Valid(CollectPages(fs, paths, cache, lib).cache)
    ensures Size(CollectPages(fs, paths, cache, lib).cache) <= PageCacheCapacity
  {
    if paths != [] {
      var init, p := paths[..|paths| - 1], paths[|paths| - 1];
      CollectPagesKeepsCacheValid(fs, init, cache, lib);
      var st := CollectPages(fs, init, cache, lib);
      if p !in st.cache.entries && p in fs.files {
        match lib.read(fs.files[p]) {
          case None =>
          case Some(ps) =>
            InsertStores(st.cache, PageCacheCapacity, p, ps);
            InsertBounded(st.cache, PageCacheCapacity, p, ps);
        }
      }
    }
  }

  /** `with open(output, 'wb') as f: writer.write(f)` followed by
      `_verify_output_file`: opening fails when the directory is missing; a writer
      that raises leaves the truncated file behind. */
  function WriteMerged(fs: FileSystem, output: Path, pages: seq<Page>, lib: PdfLibrary): (bool, FileSystem) {
    if !CanWrite(fs, output) then (false, fs)
    else match lib.write(pages)
      case None => (false, WriteFile(fs, output, []))
      case Some(bytes) =>
        var fs' := WriteFile(fs, output, bytes);
        (PassesPdfChecks(fs', output), fs')
  }

  /** The structural merge succeeds only with an output file that passes the
      checks, and never without a page to write. */
  lemma WriteMergedSucceedsOnlyIfChecked(fs: FileSystem, output: Path, pages: seq<Page>, lib: PdfLibrary)
    ensures WriteMerged(fs, output, pages, lib).0 ==> PassesPdfChecks(WriteMerged(fs, output, pages, lib).1, output)
    ensures WriteMerged(fs, output, pages, lib).0 <==>
              CanWrite(fs, output) && lib.write(pages).Some?
              && |lib.write(pages).value| >= MinPdfSize && HasPdfHeader(lib.write(pages).value)
  {
  }

  // ---------------------------------------------------------- simple merge

  /** The `best_pdf`/`max_size` scan: the first existing input whose size is
      strictly greater than every size seen before it (and than 0). The result
      is a non-empty input file of maximal size, or nothing with size 0. */
  function Largest(fs: FileSystem, paths: seq<Path>): (r: (Option<Path>, nat))
    ensures r.0.None? ==> r.1 == 0
    ensures r.0.Some? ==> r.0.value in paths && r.0.value in fs.files && FileSize(fs, r.0.value) == r.1 > 0
    ensures forall q :: q in paths && q in fs.files ==> FileSize(fs, q) <= r.1
  {
    if paths == [] then (None, 0)
    else
      var init := paths[..|paths| - 1];
      var (best, size) := Largest(fs, init);
      var p := paths[|paths| - 1];
      assert paths == init + [p];
      if p in fs.files && FileSize(fs, p) > size then (Some(p), FileSize(fs, p)) else (best, size)
  }

  /** The scan finds nothing exactly when no input is a non-empty file, and what it
      finds is the first input of maximal size: every earlier input is smaller. */
  lemma {:induction false} LargestIsFirst(fs: FileSystem, paths: seq<Path>)
    ensures Largest(fs, paths).0.None? <==> forall q :: q in paths && q in fs.files ==> FileSize(fs, q) == 0
    ensures Largest(fs, paths).0.Some? ==>
              exists i :: 0 <= i < |paths| && paths[i] == Largest(fs, paths).0.value
                   && forall j :: 0 <= j < i && paths[j] in fs.files ==> FileSize(fs, paths[j]) < Largest(fs, paths).1
  {
    if paths != [] {
      var init, p := paths[..|paths| - 1], paths[|paths| - 1];
      LargestIsFirst(fs, init);
      assert paths == init + [p];
      var (best, size) := Largest(fs, init);
      if p in fs.files && FileSize(fs, p) > size {
        var i := |paths| - 1;
        assert paths[i] == p;
        forall j | 0 <= j < i && paths[j] in fs.files ensures FileSize(fs, paths[j]) < FileSize(fs, p) {
          assert paths[j] in init;
        }
      } else if best.Some? {
        var i :| 0 <= i < |init| && init[i] == best.value
                 && forall j :: 0 <= j < i && init[j] in fs.files ==> FileSize(fs, init[j]) < size;
        assert paths[i] == best.value;
        forall j | 0 <= j < i && paths[j] in fs.files ensures FileSize(fs, paths[j]) < size {
          assert paths[j] == init[j];
        }
      }
    }
  }

  /** Where `shutil.copy2(src, output)` writes: into the directory when `output` is
      one. */
  function CopyTarget(fs: FileSystem, src: Path, output: Path): Path {
    if output in fs.dirs then Join(output, Name(src)) else output
  }

  /** `_merge_simple_optimized` after the scan: copy the largest input, then report
      whether `output` exists. Copying a file onto itself raises, as does a missing
      directory. */
  function SimpleMergeResult(fs: FileSystem, paths: seq<Path>, output: Path): (bool, FileSystem) {
    match Largest(fs, paths).0
    case None => (false, fs)
    case Some(best) =>
      var target := CopyTarget(fs, best, output);
      if target == best || !CanWrite(fs, target) then (false, fs)
      else
        var fs' := WriteFile(fs, target, fs.files[best]);
        (Exists(fs', output), fs')
  }

  /** The fallback succeeds exactly when there is a non-empty input and the copy
      can be made; the copy then holds the bytes of the first largest input. */
  lemma SimpleMergeSpec(fs: FileSystem, paths: seq<Path>, output: Path)
    ensures SimpleMergeResult(fs, paths, output).0 <==>
              Largest(fs, paths).0.Some?
              && CopyTarget(fs, Largest(fs, paths).0.value, output) != Largest(fs, paths).0.value
              && CanWrite(fs, CopyTarget(fs, Largest(fs, paths).0.value, output))
    ensures SimpleMergeResult(fs, paths, output).0 ==>
              var best := Largest(fs, paths).0.value;
              var fs' := SimpleMergeResult(fs, paths, output).1;
              Exists(fs', output) && CopyTarget(fs, best, output) in fs'.files
              && fs'.files[CopyTarget(fs, best, output)] == fs.files[best]
  {
  }

  /** What `merge_pdfs` gives: whether it succeeded, the file system and the page
      cache afterwards. */
  datatype MergeOutcome = MergeOutcome(ok: bool, fs: FileSystem, cache: Cache<Path, seq<Page>>)

  /** `merge_pdfs` on the temporary paths `temps`: nothing to merge fails at once;
      otherwise the inputs that pass the checks are merged page by page when PyPDF2
      is present, and copied by `_merge_simple_optimized` when it is not or when the
      page merge fails. */
  function MergeResult(fs: FileSystem, temps: seq<Path>, output: Path, lib: PdfLibrary,
                       setOrder: seq<Path> -> seq<Path>, pypdf2Available: bool,
                       cache: Cache<Path, seq<Page>>): MergeOutcome
  {
    var valid := ValidPdfs(fs, setOrder(temps));
    if temps == [] || valid == [] then MergeOutcome(false, fs, cache)
    else if !pypdf2Available then
      var (ok, fs') := SimpleMergeResult(fs, valid, output);
      MergeOutcome(ok, fs', cache)
    else
      var st := CollectPages(fs, valid, cache, lib);
      var (ok1, fs1) := if st.pages == [] then (false, fs) else WriteMerged(fs, output, st.pages, lib);
      if ok1 then MergeOutcome(true, fs1, st.cache)
      else
        var (ok2, fs2) := SimpleMergeResult(fs1, valid, output);
        MergeOutcome(ok2, fs2, st.cache)
  }

  /** A merge that succeeds leaves the output in place, as a file or, for a copy
      into a directory, as that directory; it fails at once when there is nothing
      to merge. */
  lemma MergeResultSpec(fs: FileSystem, temps: seq<Path>, output: Path, lib: PdfLibrary,
                        setOrder: seq<Path> -> seq<Path>, pypdf2Available: bool, cache: Cache<Path, seq<Page>>)
    ensures var m := MergeResult(fs, temps, output, lib, setOrder, pypdf2Available, cache);
            m.ok ==> Exists(m.fs, output)
    ensures temps == [] ==> MergeResult(fs, temps, output, lib, setOrder, pypdf2Available, cache)
                            == MergeOutcome(false, fs, cache)
  {
    var valid := ValidPdfs(fs, setOrder(temps));
    if temps != [] && valid != [] && pypdf2Available {
      var st := CollectPages(fs, valid, cache, lib);
      if st.pages != [] {
        WriteMergedSucceedsOnlyIfChecked(fs, output, st.pages, lib);
      }
    }
  }

  // ---------------------------------------------------------------- cleanup

  /** `_delete_file`: removes a regular file; a missing path or a directory gives
      False. */
  function DeleteFile(fs: FileSystem, p: Path): (r: (FileSystem, bool))
    ensures r.1 <==> p in fs.files
    ensures r.0.files == fs.files - {p} && r.0.dirs == fs.dirs
  {
    if p in fs.files then (fs.(files := fs.files - {p}), true) else (fs, false)
  }

  class PdfMerger {
    const maxWorkers: int
    const pypdf2Available: bool
    var cache: Cache<Path, seq<Page>>

    ghost predicate Valid()
      reads this
    {
      FifoCache.Valid(cache) && Size(cache) <= PageCacheCapacity
    }

    constructor (maxWorkers: int, pypdf2Available: bool)
      ensures Valid() && cache == EmptyCache()
      ensures this.maxWorkers == maxWorkers && this.pypdf2Available == pypdf2Available
    {
      this.maxWorkers := maxWorkers;
      this.pypdf2Available := pypdf2Available;
      cache := EmptyCache();
    }

    /** `_add_to_cache`. */
    method AddToCache(p: Path, pages: seq<Page>)
      requires Valid()
      modifies this
      ensures Valid() && cache == Insert(old(cache), PageCacheCapacity, p, pages)
      ensures Lookup(cache, p) == Some(pages)
    {
      InsertStores(cache, PageCacheCapacity, p, pages);
      InsertBounded(cache, PageCacheCapacity, p, pages);
      cache := Insert(cache, PageCacheCapacity, p, pages);
    }

    /** `clear_cache`. */
    method ClearCache()
      modifies this
      ensures Valid() && cache == EmptyCache()
    {
      cache := EmptyCache();
    }

    /** `_validate_pdfs`. */
    method ValidatePdfs(fs: FileSystem, paths: seq<Path>) returns (valid: seq<Path>)
      ensures valid == ValidPdfs(fs, paths)
      ensures forall p :: p in valid <==> p in paths && PassesPdfChecks(fs, p)
    {
      valid := [];
      var i := 0;
      while i < |paths|
        invariant 0 <= i <= |paths|
        invariant valid == ValidPdfs(fs, paths[..i])
      {
        assert paths[..i + 1][..i] == paths[..i];
        if paths[i] in fs.files && |fs.files[paths[i]]| >= MinPdfSize && HasPdfHeader(fs.files[paths[i]]) {
          valid := valid + [paths[i]];
        }
        i := i + 1;
      }
      assert paths[..i] == paths;
      ValidPdfsMembers(fs, paths);
    }

    /** `_merge_with_pypdf2_optimized`: the page loop, then the write when at least
      one page was collected. */
    method MergeWithPypdf2(fs: FileSystem, paths: seq<Path>, output: Path, lib: PdfLibrary)
      returns (ok: bool, fs': FileSystem)
      requires Valid()
      modifies this
      ensures Valid()
      ensures var st := CollectPages(fs, paths, old(cache), lib);
              cache == st.cache
              && (st.pages == [] ==> !ok && fs' == fs)
              && (st.pages != [] ==> (ok, fs') == WriteMerged(fs, output, st.pages, lib))
    {
      var pages: seq<Page> := [];
      var i := 0;
      while i < |paths|
        invariant 0 <= i <= |paths|
        invariant Valid()
        invariant MergeState(pages, cache) == CollectPages(fs, paths[..i], old(cache), lib)
      {
        assert paths[..i + 1][..i] == paths[..i];
        var p := paths[i];
        if p in cache.entries {
          pages := pages + cache.entries[p];
        } else if p in fs.files {
          var read := lib.read(fs.files[p]);
          if read.Some? && read.value != [] {
            pages := pages + read.value;
            AddToCache(p, read.value);
          }
        }
        i := i + 1;
      }
      assert paths[..i] == paths;
      if pages != [] {
        if !CanWrite(fs, output) {
          ok, fs' := false, fs;
        } else {
          var bytes := lib.write(pages);
          if bytes.None? {
            ok, fs' := false, WriteFile(fs, output, []);
          } else {
            fs' := WriteFile(fs, output, bytes.value);
            ok := output in fs'.files && |fs'.files[output]| >= MinPdfSize && HasPdfHeader(fs'.files[output]);
          }
        }
      } else {
        ok, fs' := false, fs;
      }
    }

    /** `_merge_simple_optimized`: the largest-file scan, then the copy. */
    method MergeSimple(fs: FileSystem, paths: seq<Path>, output: Path) returns (ok: bool, fs': FileSystem)
      ensures (ok, fs') == SimpleMergeResult(fs, paths, output)
      ensures ok ==> Exists(fs', output)
    {
      var best: Option<Path> := None;
      var maxSize: nat := 0;
      var i := 0;
      while i < |paths|
        invariant 0 <= i <= |paths|
        invariant (best, maxSize) == Largest(fs, paths[..i])
      {
        assert paths[..i + 1][..i] == paths[..i];
        if paths[i] in fs.files && |fs.files[paths[i]]| > maxSize {
          maxSize := |fs.files[paths[i]]|;
          best := Some(paths[i]);
        }
        i := i + 1;
      }
      assert paths[..i] == paths;
      if best.None? {
        ok, fs' := false, fs;
      } else {
        var src := best.value;
        var target := if output in fs.dirs then Join(output, Name(src)) else output;
        if target == src || Parent(target) !in fs.dirs || target in fs.dirs {
          ok, fs' := false, fs;
        } else {
          fs' := WriteFile(fs, target, fs.files[src]);
          ok := output in fs'.files || output in fs'.dirs;
        }
      }
    }

    /** `merge_pdfs`: dedupe, validate, try the structural merge, and fall back to
      the copy whenever that did not succeed. */
    method MergePdfs(fs: FileSystem, temps: seq<Path>, output: Path, lib: PdfLibrary,
                     setOrder: seq<Path> -> seq<Path>)
      returns (ok: bool, fs': FileSystem)
      requires Valid()
      modifies this
      ensures Valid()
      ensures ok ==> Exists(fs', output)
      ensures temps == [] ==> !ok && fs' == fs && cache == old(cache)
      ensures var valid := ValidPdfs(fs, setOrder(temps));
              temps != [] && valid == [] ==> !ok && fs' == fs && cache == old(cache)
      ensures var valid := ValidPdfs(fs, setOrder(temps));
              temps != [] && valid != [] && !pypdf2Available ==>
                (ok, fs') == SimpleMergeResult(fs, valid, output) && cache == old(cache)
      ensures var valid := ValidPdfs(fs, setOrder(temps));
              var st := CollectPages(fs, valid, old(cache), lib);
              var (ok1, fs1) := if st.pages == [] then (false, fs) else WriteMerged(fs, output, st.pages, lib);
              temps != [] && valid != [] && pypdf2Available ==>
                cache == st.cache
                && (ok1 ==> ok && fs' == fs1)
                && (!ok1 ==> (ok, fs') == SimpleMergeResult(fs1, valid, output))
      ensures MergeOutcome(ok, fs', cache) == MergeResult(fs, temps, output, lib, setOrder, pypdf2Available, old(cache))
    {
      if temps == [] {
        return false, fs;
      }
      var unique := setOrder(temps);
      var valid := ValidatePdfs(fs, unique);
      if valid == [] {
        return false, fs;
      }
      fs' := fs;
      if pypdf2Available {
        var merged;
        merged, fs' := MergeWithPypdf2(fs, valid, output, lib);
        if merged {
          return true, fs';
        }
      }
      ok, fs' := MergeSimple(fs', valid, output);
    }

    /** `cleanup_temp_files`: more than ten paths are deleted through a pool of
      `min(4, max_workers)` threads (which cannot be created when that is not
      positive), fewer one after another; `order` is the order the deletions run
      in. Returns the file system and the number of files removed. */
    method CleanupTempFiles(fs: FileSystem, paths: seq<Path>, order: seq<nat>)
      returns (fs': FileSystem, cleaned: nat)
      requires IsIndexOrder(order, |paths|)
      ensures |paths| > PooledCleanupThreshold && (if 4 < maxWorkers then 4 else maxWorkers) <= 0 ==>
                fs' == fs && cleaned == 0
      ensures !(|paths| > PooledCleanupThreshold && (if 4 < maxWorkers then 4 else maxWorkers) <= 0) ==>
                fs'.files == fs.files - Elems(paths) && fs'.dirs == fs.dirs
                && cleaned == |fs.files| - |fs'.files|
    {
      if |paths| > PooledCleanupThreshold {
        var poolSize := if 4 < maxWorkers then 4 else maxWorkers;
        if poolSize <= 0 {
          return fs, 0;
        }
        fs', cleaned := DeleteAll(fs, Permute(paths, order));
        DeleteSeqRemoves(fs, Permute(paths, order));
        DeleteSeqCounts(fs, Permute(paths, order));
      } else {
        fs', cleaned := DeleteAll(fs, paths);
        DeleteSeqRemoves(fs, paths);
        DeleteSeqCounts(fs, paths);
      }
    }
  }

  /** The paths in the order the pool's deletions run. */
  function Permute(paths: seq<Path>, order: seq<nat>): (q: seq<Path>)
    requires IsIndexOrder(order, |paths|)
    ensures |q| == |paths| && Elems(q) == Elems(paths)
    ensures forall j :: 0 <= j < |q| ==> q[j] == paths[order[j]]
  {
    var q := seq(|order|, j requires 0 <= j < |order| => paths[order[j]]);
    assert Elems(q) == Elems(paths) by {
      forall x | x in Elems(paths) ensures x in Elems(q) {
        var i :| 0 <= i < |paths| && paths[i] == x;
        assert i in order;
        var j :| 0 <= j < |order| && order[j] == i;
        assert q[j] == x;
      }
    }
    q
  }

  /** Runs `_delete_file` on each path of `queue` in turn; gives the file system
      and the number of deletions that reported True. */
  function DeleteSeq(fs: FileSystem, queue: seq<Path>): (FileSystem, nat) {
    if queue == [] then (fs, 0)
    else
      var (current, cleaned) := DeleteSeq(fs, queue[..|queue| - 1]);
      var (next, removed) := DeleteFile(current, queue[|queue| - 1]);
      (next, cleaned + if removed then 1 else 0)
  }

  /** Deleting a list of paths one by one removes exactly those paths... */
  lemma {:induction false} DeleteSeqRemoves(fs: FileSystem, queue: seq<Path>)
    ensures DeleteSeq(fs, queue).0.files == fs.files - Elems(queue)
    ensures DeleteSeq(fs, queue).0.dirs == fs.dirs
  {
    if queue != [] {
      var init := queue[..|queue| - 1];
      DeleteSeqRemoves(fs, init);
      ElemsPrefix(queue, |queue| - 1);
      assert queue[..|queue| - 1] == init;
    }
  }

  /** ... and counts exactly the files that disappeared: a path listed twice, a
      missing path or a directory adds nothing. */
  lemma {:induction false} DeleteSeqCounts(fs: FileSystem, queue: seq<Path>)
    ensures DeleteSeq(fs, queue).1 + |DeleteSeq(fs, queue).0.files| == |fs.files|
  {
    if queue != [] {
      var init, p := queue[..|queue| - 1], queue[|queue| - 1];
      DeleteSeqCounts(fs, init);
      var current := DeleteSeq(fs, init).0;
      if p in current.files {
        assert |current.files - {p}| == |current.files| - 1 by {
          assert (current.files - {p}).Keys == current.files.Keys - {p};
        }
      }
    }
  }

  /** The loop that runs the deletions. */
  method DeleteAll(fs: FileSystem, queue: seq<Path>) returns (fs': FileSystem, cleaned: nat)
    ensures (fs', cleaned) == DeleteSeq(fs, queue)
  {
    fs', cleaned := fs, 0;
    var k := 0;
    while k < |queue|
      invariant k <= |queue| && (fs', cleaned) == DeleteSeq(fs, queue[..k])
    {
      assert queue[..k + 1][..k] == queue[..k];
      var r := DeleteFile(fs', queue[k]);
      cleaned := cleaned + (if r.1 then 1 else 0);
      fs' := r.0;
      k := k + 1;
    }
    assert queue[..k] == queue;
  }
}
