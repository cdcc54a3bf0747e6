/** `ImageProcessor`: orders the extracted images, cuts them into groups, renders
    each group to a temporary PDF, keeps the groups that passed when enough did,
    and hands the temporary PDFs to the merger. */
module ImageProcessor {
  import opened Common
  import opened Sorting
  import opened PyCompare
  import opened BaseConverter
  import opened FifoCache
  import PdfMerger

  const ImageCacheCapacity: nat := 50
  /** The bytes `%%EOF`. */
  const EofMarker: seq<byte> := [37, 37, 69, 79, 70]
  /** `f.seek(-50, 2)`: the end-of-file marker is looked for in the last 50 bytes. */
  const TrailerWindow: nat := 50

  const Alphabetical: string := "Alphab\U{00E9}tique"
  const Reversed: string := "Invers\U{00E9}"

  /** The options the pipeline reads: `merge_order` (callers pass "Naturel" when it
      is absent), the two speed flags, `grayscale`, and `resize` ("" when absent). */
  datatype ConversionOptions = ConversionOptions(
    mergeOrder: string, veryfast: bool, fast: bool, grayscale: bool, resize: string)

  // ---------------------------------------------------------------- ordering

  /** `image_paths = list(set(image_paths))`, done only when it drops something. */
  function Deduplicated(paths: seq<Path>, setOrder: seq<Path> -> seq<Path>): seq<Path> {
    var unique := setOrder(paths);
    if |unique| != |paths| then unique else paths
  }

  lemma DeduplicatedSpec(paths: seq<Path>, setOrder: seq<Path> -> seq<Path>)
    requires IsSetOrder(setOrder)
    ensures NoDup(Deduplicated(paths, setOrder))
    ensures Elems(Deduplicated(paths, setOrder)) == Elems(paths)
    ensures NoDup(paths) ==> Deduplicated(paths, setOrder) == paths
  {
    var unique := setOrder(paths);
    ElemsCard(paths);
    ElemsCard(unique);
  }

  /** `Path(x).name.lower()`, the key of the alphabetical order. */
  function NameKey(p: Path): string {
    Lower(Name(p))
  }

  function Reverse<T>(s: seq<T>): (r: seq<T>)
    ensures |r| == |s| && forall i :: 0 <= i < |s| ==> r[i] == s[|s| - 1 - i]
  {
    seq(|s|, i requires 0 <= i < |s| => s[|s| - 1 - i])
  }

  /** The `merge_order` policy applied to the naturally sorted list; "Personnalisé"
      and every unknown value leave it as it is. */
  function ApplyMergeOrder(sorted: seq<Path>, mergeOrder: string): seq<Path> {
    if mergeOrder == Alphabetical then SortBy(sorted, ByKey(NameKey, StrLt))
    else if mergeOrder == Reversed then Reverse(sorted)
    else sorted
  }

  /** The list `convert_images_to_pdf` groups: deduplicated, stably sorted by the
      natural key of the whole path, then reordered by the policy. */
  function OrderImages(paths: seq<Path>, mergeOrder: string, setOrder: seq<Path> -> seq<Path>): seq<Path> {
    ApplyMergeOrder(SortBy(Deduplicated(paths, setOrder), NaturalLe), mergeOrder)
  }

  /** Reversing keeps the entries and turns an ascending order into a
      descending one. */
  lemma ReverseSpec<T>(s: seq<T>, le: (T, T) -> bool)
    ensures Elems(Reverse(s)) == Elems(s)
    ensures NoDup(s) ==> NoDup(Reverse(s))
    ensures SortedBy(s, le) ==> SortedBy(Reverse(s), Flip(le))
  {
    var r := Reverse(s);
    forall x | x in s ensures x in r {
      var k :| 0 <= k < |s| && s[k] == x;
      assert r[|s| - 1 - k] == x;
    }
    if NoDup(s) {
      forall i, j | 0 <= i < j < |r| ensures r[i] != r[j] {
        assert r[i] == s[|s| - 1 - i] && r[j] == s[|s| - 1 - j];
      }
    }
    if SortedBy(s, le) {
      forall i, j | 0 <= i < j < |r| ensures Flip(le)(r[i], r[j]) {
        assert r[i] == s[|s| - 1 - i] && r[j] == s[|s| - 1 - j];
      }
    }
  }

  /** A stable sort of a duplicate-free list is a duplicate-free list of the same
      paths, in order. */
  lemma SortKeepsPaths(s: seq<Path>, le: (Path, Path) -> bool)
    requires TotalPreorder(le)
    ensures SortedBy(SortBy(s, le), le)
    ensures Elems(SortBy(s, le)) == Elems(s)
    ensures NoDup(s) ==> NoDup(SortBy(s, le))
  {
    SortBySortedPerm(s, le);
    PermutationKeepsElems(s, SortBy(s, le));
  }

  /** The ordered list holds each input path exactly once, and is in the order the
      policy asks for. */
  lemma OrderImagesSpec(paths: seq<Path>, mergeOrder: string, setOrder: seq<Path> -> seq<Path>)
    requires IsSetOrder(setOrder)
    ensures NoDup(OrderImages(paths, mergeOrder, setOrder))
    ensures Elems(OrderImages(paths, mergeOrder, setOrder)) == Elems(paths)
    ensures mergeOrder == Alphabetical ==>
              SortedBy(OrderImages(paths, mergeOrder, setOrder), ByKey(NameKey, StrLt))
    ensures mergeOrder == Reversed ==>
              SortedBy(OrderImages(paths, mergeOrder, setOrder), Flip(NaturalLe))
    ensures mergeOrder != Alphabetical && mergeOrder != Reversed ==>
              SortedBy(OrderImages(paths, mergeOrder, setOrder), NaturalLe)
  {
    var unique := Deduplicated(paths, setOrder);
    DeduplicatedSpec(paths, setOrder);
    NaturalLeTotalPreorder();
    SortKeepsPaths(unique, NaturalLe);
    var natural := SortBy(unique, NaturalLe);
    if mergeOrder == Alphabetical {
      StrLtStrictTotalOrder();
      ByKeyTotalPreorder(NameKey, StrLt);
      SortKeepsPaths(natural, ByKey(NameKey, StrLt));
    } else if mergeOrder == Reversed {
      ReverseSpec(natural, NaturalLe);
    }
  }

  // -------------------------------------------------------------- group size

  /** A Python number as `_calculate_optimal_group_size` produces it: an `int`, or
      the `float` `base * 1.5`, held as twice its value. */
  datatype PyNum = PyInt(i: int) | PyFloat(halves: int)

  function Twice(x: PyNum): int {
    match x
    case PyInt(i) => 2 * i
    case PyFloat(h) => h
  }

  /** Python's `min(a, b)`: `a` unless `b` is strictly smaller. */
  function PyMin(a: PyNum, b: PyNum): PyNum {
    if Twice(b) < Twice(a) then b else a
  }

  /** Python's `max(a, b)`: `a` unless `b` is strictly greater. */
  function PyMax(a: PyNum, b: PyNum): PyNum {
    if Twice(b) > Twice(a) then b else a
  }

  function BaseGroupSize(options: ConversionOptions): nat {
    if options.veryfast then 60 else if options.fast then 40 else 25
  }

  /** `max(1, self.max_workers)`. */
  function WorkerShare(maxWorkers: int): nat {
    if maxWorkers > 1 then maxWorkers else 1
  }

  /** `_calculate_optimal_group_size`. */
  function OptimalGroupSize(total: nat, options: ConversionOptions, maxWorkers: int): PyNum {
    var base := BaseGroupSize(options);
    var bySpeed :=
      if maxWorkers > 6 then PyInt(base / 2)
      else if maxWorkers < 3 then PyFloat(3 * base)
      else PyInt(base);
    var byCount :=
      if total > 1000 then PyMin(bySpeed, PyInt(30))
      else if total < 100 then PyMax(bySpeed, PyInt(15))
      else bySpeed;
    PyMax(PyInt(10), PyMin(byCount, PyInt(total / WorkerShare(maxWorkers))))
  }

  /** The size is never below 10. It is the float `base * 1.5` exactly when there
      are fewer than 3 workers, at most 1000 images, and the per-worker share
      does not undercut it; otherwise it is an integer that exceeds 10 only as
      far as the per-worker share allows. */
  lemma OptimalGroupSizeSpec(total: nat, options: ConversionOptions, maxWorkers: int)
    ensures Twice(OptimalGroupSize(total, options, maxWorkers)) >= 20
    ensures OptimalGroupSize(total, options, maxWorkers).PyFloat? <==>
              maxWorkers < 3 && total <= 1000
              && 3 * BaseGroupSize(options) <= 2 * (total / WorkerShare(maxWorkers))
    ensures OptimalGroupSize(total, options, maxWorkers).PyFloat? ==>
              OptimalGroupSize(total, options, maxWorkers).halves == 3 * BaseGroupSize(options)
    ensures OptimalGroupSize(total, options, maxWorkers).PyInt? ==>
              var g := OptimalGroupSize(total, options, maxWorkers).i;
              g >= 10 && (g == 10 || g <= total / WorkerShare(maxWorkers))
  {
  }

  // --------------------------------------------------------------- partition

  /** `[s[i:i + g] for i in range(0, len(s), g)]`. */
  function Partition<T>(s: seq<T>, g: nat): seq<seq<T>>
    requires g > 0
    decreases |s|
  {
    if s == [] then []
    else if |s| <= g then [s]
    else [s[..g]] + Partition(s[g..], g)
  }

  function Flatten<T>(groups: seq<seq<T>>): seq<T> {
    if groups == [] then [] else groups[0] + Flatten(groups[1..])
  }

  /** The groups put back together give the list; all but the last hold exactly
      `g` images, and none is empty. */
  lemma {:induction false} PartitionSpec<T>(s: seq<T>, g: nat)
    requires g > 0
    ensures Flatten(Partition(s, g)) == s
    ensures forall k :: 0 <= k < |Partition(s, g)| ==> 0 < |Partition(s, g)[k]| <= g
    ensures forall k :: 0 <= k < |Partition(s, g)| - 1 ==> |Partition(s, g)[k]| == g
    decreases |s|
  {
    if |s| > g {
      var rest := Partition(s[g..], g);
      PartitionSpec(s[g..], g);
      var p := Partition(s, g);
      assert p == [s[..g]] + rest;
      assert p[1..] == rest;
      assert s == s[..g] + s[g..];
      forall k | 0 <= k < |p| ensures 0 < |p[k]| <= g && (k < |p| - 1 ==> |p[k]| == g) {
        if k > 0 { assert p[k] == rest[k - 1]; }
      }
    }
  }

  lemma MulSucc(a: int, g: int)
    ensures (a + 1) * g == a * g + g
  {
  }

  /** There are `ceil(n / g)` groups: the fewest groups of `g` that hold the
      whole list. */
  lemma {:induction false} PartitionCount<T>(s: seq<T>, g: nat)
    requires g > 0
    ensures (|Partition(s, g)| - 1) * g < |s| <= |Partition(s, g)| * g
    decreases |s|
  {
    if |s| > g {
      var rest := Partition(s[g..], g);
      PartitionCount(s[g..], g);
      assert |Partition(s, g)| == |rest| + 1;
      MulSucc(|rest|, g);
      MulSucc(|rest| - 1, g);
    }
  }

  // ---------------------------------------------------------- success gate

  /** `max(1, len(groups) // 3)`: a floor, not a ceiling. */
  function SuccessThreshold(groupCount: nat): nat {
    if groupCount / 3 > 1 then groupCount / 3 else 1
  }

  /** The threshold is one until six groups, then a third rounded down, so it can
      accept fewer than a third of the groups (one in five). */
  lemma SuccessThresholdSpec(groupCount: nat)
    ensures SuccessThreshold(groupCount) >= 1
    ensures groupCount < 6 ==> SuccessThreshold(groupCount) == 1
    ensures groupCount >= 3 ==> 3 * SuccessThreshold(groupCount) <= groupCount < 3 * SuccessThreshold(groupCount) + 3
    ensures groupCount > 0 ==> SuccessThreshold(groupCount) <= groupCount
  {
  }

  /** The end of `_convert_groups_parallel`: the success rate divides by the group
      count (None: ZeroDivisionError), then fewer successes than the threshold
      discard every result. */
  function GateResults(temps: seq<(nat, Path)>, groupCount: nat): (r: Option<seq<(nat, Path)>>)
    ensures r.Some? <==> groupCount > 0
    ensures r.Some? ==> (r.value == [] <==> |temps| < SuccessThreshold(groupCount) || temps == [])
    ensures r.Some? && r.value != [] ==> r.value == temps
  {
    if groupCount == 0 then None
    else if |temps| < SuccessThreshold(groupCount) then Some([])
    else Some(temps)
  }

  // ------------------------------------------------------------ PDF checks

  /** `b'%%EOF' in end_content` for the last 50 bytes. */
  predicate HasEofMarker(data: seq<byte>) {
    |data| >= TrailerWindow && Contains(data[|data| - TrailerWindow..], EofMarker)
  }

  /** `_verify_pdf_file`: a regular file (a directory makes `open` raise), at least
      1000 bytes, `%PDF` first, `%%EOF` within the last 50 bytes. */
  predicate VerifyPdfFile(fs: FileSystem, p: Path) {
    p in fs.files && |fs.files[p]| >= PdfMerger.MinPdfSize
    && PdfMerger.HasPdfHeader(fs.files[p]) && HasEofMarker(fs.files[p])
  }

  /** The group check is the merger's check plus the trailer: every verified group
      PDF passes the merger's validation. */
  lemma VerifiedPassesMergerChecks(fs: FileSystem, p: Path)
    ensures VerifyPdfFile(fs, p) <==> PdfMerger.PassesPdfChecks(fs, p) && HasEofMarker(fs.files[p])
  {
  }

  /** The check reads the bytes it describes: a marker written within the last 50
      bytes is found, one further back is not looked at. */
  lemma EofMarkerAtEnd(body: seq<byte>, tail: seq<byte>)
    requires |body| + |EofMarker| + |tail| >= TrailerWindow && |tail| + |EofMarker| <= TrailerWindow
    ensures HasEofMarker(body + EofMarker + tail)
  {
    var d := body + EofMarker + tail;
    var w := d[|d| - TrailerWindow..];
    var at := TrailerWindow - |tail| - |EofMarker|;
    var start := |body| + |EofMarker| + |tail| - TrailerWindow;
    assert d[|body|..|body| + |EofMarker|] == EofMarker;
    assert w[at..at + |EofMarker|] == d[start + at..start + at + |EofMarker|];
    assert start + at == |body|;
    ContainsAt(w, EofMarker, at);
  }

  // ----------------------------------------------------------------- images

  /** Pillow as functions: decoding a file's bytes, the mode conversions, the
      thumbnail and the PDF writer (None when they raise). */
  datatype ImageLib = ImageLib(
    open: seq<byte> -> Option<Image>,
    toRgb: Image -> Image,
    toGray: Image -> Image,
    thumbnail: (Image, nat, nat) -> Image,
    save: seq<Image> -> Option<seq<byte>>)

  /** `_resize_image`'s table. */
  function TargetSize(resize: string): Option<(nat, nat)> {
    if resize == "A4" then Some((595, 842))
    else if resize == "Letter" then Some((612, 792))
    else if resize == "A3" then Some((842, 1191))
    else if resize == "A5" then Some((420, 595))
    else if resize == "HD" then Some((1280, 720))
    else if resize == "FHD" then Some((1920, 1080))
    else None
  }

  /** The six named sizes are the only ones; portrait paper sizes are taller than
      wide and the screen sizes wider than tall. */
  lemma TargetSizeSpec(resize: string)
    ensures TargetSize(resize).Some? <==> resize in {"A4", "Letter", "A3", "A5", "HD", "FHD"}
    ensures TargetSize(resize).Some? && resize in {"A4", "Letter", "A3", "A5"} ==>
              TargetSize(resize).value.0 < TargetSize(resize).value.1
    ensures TargetSize(resize).Some? && resize in {"HD", "FHD"} ==>
              TargetSize(resize).value.0 > TargetSize(resize).value.1
  {
  }

  function ResizeImage(img: Image, resize: string, lib: ImageLib): Image {
    match TargetSize(resize)
    case None => img
    case Some((w, h)) => lib.thumbnail(img, w, h)
  }

  /** `_apply_image_options`. */
  function ApplyImageOptions(img: Image, options: ConversionOptions, lib: ImageLib): Image {
    var rgb := lib.toRgb(img);
    var shaded := if options.grayscale then lib.toRgb(lib.toGray(rgb)) else rgb;
    if options.resize != "" then ResizeImage(shaded, options.resize, lib) else shaded
  }

  /** `os.path.exists(p) and os.path.getsize(p) > 0`; a directory exists and has a
      positive size. */
  predicate ValidImage(fs: FileSystem, p: Path) {
    (p in fs.files && |fs.files[p]| > 0) || p in fs.dirs
  }

  /** `_validate_images`: the paths that pass, in order. */
  function ValidImages(fs: FileSystem, paths: seq<Path>): seq<Path> {
    if paths == [] then []
    else ValidImages(fs, paths[..|paths| - 1])
         + (if ValidImage(fs, paths[|paths| - 1]) then [paths[|paths| - 1]] else [])
  }

  lemma {:induction false} ValidImagesMembers(fs: FileSystem, paths: seq<Path>)
    ensures forall p :: p in ValidImages(fs, paths) <==> p in paths && ValidImage(fs, p)
  {
    if paths != [] {
      ValidImagesMembers(fs, paths[..|paths| - 1]);
      assert paths == paths[..|paths| - 1] + [paths[|paths| - 1]];
    }
  }

  /** What loading a list of images gives: the images in order, the image cache
      afterwards, and the paths this call put into the cache. */
  datatype Loaded = Loaded(images: seq<Image>, cache: Cache<Path, Image>, added: set<Path>)

  /** `_load_images_optimized`. Every image the processor caches is also handed to
      the PDF writer and closed once its group is saved, so an entry cached before
      this call holds a closed image: copying it raises, and the path is skipped
      with the cache unchanged. An entry cached earlier in this same call is still
      open and is served. Otherwise a file Pillow can open gives the image with the
      options applied, which is cached; anything else is skipped. */
  function LoadedImages(fs: FileSystem, paths: seq<Path>, cache: Cache<Path, Image>,
                        options: ConversionOptions, lib: ImageLib): Loaded
  {
    if paths == [] then Loaded([], cache, {})
    else
      var l := LoadedImages(fs, paths[..|paths| - 1], cache, options, lib);
      var p := paths[|paths| - 1];
      if p in l.cache.entries then
        if p in l.added then l.(images := l.images + [l.cache.entries[p]]) else l
      else if p in fs.files && lib.open(fs.files[p]).Some? then
        var img := ApplyImageOptions(lib.open(fs.files[p]).value, options, lib);
        Loaded(l.images + [img], FifoCache.Insert(l.cache, ImageCacheCapacity, p, img), l.added + {p})
      else l
  }

  /** At most one image per path; the cache stays a well-formed dict of at most
      50 entries, and only paths of the call are marked as added. */
  lemma {:induction false} LoadedImagesBounded(fs: FileSystem, paths: seq<Path>, cache: Cache<Path, Image>,
                                               options: ConversionOptions, lib: ImageLib)
    requires FifoCache.Valid(cache) && Size(cache) <= ImageCacheCapacity
    ensures |LoadedImages(fs, paths, cache, options, lib).images| <= |paths|
    ensures FifoCache.Valid(LoadedImages(fs, paths, cache, options, lib).cache)
    ensures Size(LoadedImages(fs, paths, cache, options, lib).cache) <= ImageCacheCapacity
    ensures forall q :: q in LoadedImages(fs, paths, cache, options, lib).added ==> q in paths
  {
    if paths != [] {
      var init, p := paths[..|paths| - 1], paths[|paths| - 1];
      LoadedImagesBounded(fs, init, cache, options, lib);
      var l := LoadedImages(fs, init, cache, options, lib);
      if p !in l.cache.entries && p in fs.files && lib.open(fs.files[p]).Some? {
        var img := ApplyImageOptions(lib.open(fs.files[p]).value, options, lib);
        InsertStores(l.cache, ImageCacheCapacity, p, img);
        InsertBounded(l.cache, ImageCacheCapacity, p, img);
      }
      assert paths == init + [p];
    }
  }

  /** A path cached before the call is skipped, whatever its file now is: the
      cached image was closed, and nothing changes. */
  lemma CachedImageSkipped(fs: FileSystem, p: Path, cache: Cache<Path, Image>, options: ConversionOptions, lib: ImageLib)
    requires p in cache.entries
    ensures LoadedImages(fs, [p], cache, options, lib) == Loaded([], cache, {})
  {
    assert [p][..0] == [];
  }

  /** A path loaded earlier in the same call is served again from the cache: a
      readable uncached file listed twice gives its image twice. */
  lemma ReloadedInCallServed(fs: FileSystem, p: Path, cache: Cache<Path, Image>, options: ConversionOptions, lib: ImageLib)
    requires FifoCache.Valid(cache) && p !in cache.entries
    requires p in fs.files && lib.open(fs.files[p]).Some?
    ensures var img := ApplyImageOptions(lib.open(fs.files[p]).value, options, lib);
            LoadedImages(fs, [p, p], cache, options, lib).images == [img, img]
  {
    var img := ApplyImageOptions(lib.open(fs.files[p]).value, options, lib);
    assert [p, p][..1] == [p];
    assert [p][..0] == [];
    var c := FifoCache.Insert(cache, ImageCacheCapacity, p, img);
    InsertStores(cache, ImageCacheCapacity, p, img);
    assert LoadedImages(fs, [p], cache, options, lib) == Loaded([img], c, {p});
    assert c.entries[p] == img;
  }

  /** With an empty cache every readable file contributes its freshly decoded
      image, in order: a single path is loaded exactly as Pillow decodes it. */
  lemma FreshImageLoaded(fs: FileSystem, p: Path, options: ConversionOptions, lib: ImageLib)
    requires p in fs.files && lib.open(fs.files[p]).Some?
    ensures LoadedImages(fs, [p], EmptyCache(), options, lib).images
            == [ApplyImageOptions(lib.open(fs.files[p]).value, options, lib)]
  {
    assert [p][..0] == [];
  }

  /** `_save_pdf_optimized`: Pillow writes the images to the temporary path (one
      image or `save_all` with the rest appended), then the file is verified. */
  function SavedPdf(fs: FileSystem, images: seq<Image>, temp: Path, lib: ImageLib): (bool, FileSystem) {
    if !CanWrite(fs, temp) then (false, fs)
    else match lib.save(images)
      case None => (false, fs)
      case Some(bytes) =>
        var fs' := WriteFile(fs, temp, bytes);
        (VerifyPdfFile(fs', temp), fs')
  }

  /** `temp_dir / f"group_{n}.pdf"`. */
  function TempPath(tempDir: Path, n: nat): Path {
    Join(tempDir, "group_" + NatToString(n) + ".pdf")
  }

  /** Different groups get different temporary files. */
  lemma TempPathInjective(tempDir: Path, m: nat, n: nat)
    requires m != n
    ensures TempPath(tempDir, m) != TempPath(tempDir, n)
  {
    DigitsValueOfNat(m);
    DigitsValueOfNat(n);
    var dm, dn := NatToString(m), NatToString(n);
    var pm, pn := TempPath(tempDir, m), TempPath(tempDir, n);
    assert pm == tempDir + "/" + "group_" + dm + ".pdf";
    assert pn == tempDir + "/" + "group_" + dn + ".pdf";
    if |dm| == |dn| {
      assert pm[|tempDir| + 7..|tempDir| + 7 + |dm|] == dm;
      assert pn[|tempDir| + 7..|tempDir| + 7 + |dn|] == dn;
    } else {
      assert |pm| != |pn|;
    }
  }

  /** What converting one group yields: its temporary PDF or nothing, the file
      system and the image cache afterwards. */
  datatype GroupResult = GroupResult(pdf: Option<Path>, fs: FileSystem, cache: Cache<Path, Image>)

  /** `_convert_group_to_pdf`. */
  function GroupOutcome(fs: FileSystem, tempDir: Path, group: seq<Path>, n: nat,
                        options: ConversionOptions, lib: ImageLib, cache: Cache<Path, Image>): GroupResult
  {
    var valid := ValidImages(fs, group);
    if group == [] || valid == [] then GroupResult(None, fs, cache)
    else
      var l := LoadedImages(fs, valid, cache, options, lib);
      var images := l.images;
      if images == [] then GroupResult(None, fs, l.cache)
      else
        var (ok, fs') := SavedPdf(fs, images, TempPath(tempDir, n), lib);
        GroupResult(if ok then Some(TempPath(tempDir, n)) else None, fs', l.cache)
  }

  /** A group yields its own temporary file, and only once that file has passed
      `_verify_pdf_file`; only that file may have been written. */
  lemma GroupOutcomeSpec(fs: FileSystem, tempDir: Path, group: seq<Path>, n: nat,
                         options: ConversionOptions, lib: ImageLib, cache: Cache<Path, Image>)
    ensures var r := GroupOutcome(fs, tempDir, group, n, options, lib, cache);
            r.pdf.Some? ==> r.pdf.value == TempPath(tempDir, n) && VerifyPdfFile(r.fs, r.pdf.value)
    ensures var r := GroupOutcome(fs, tempDir, group, n, options, lib, cache);
            r.fs.dirs == fs.dirs && forall q :: q != TempPath(tempDir, n) ==> (q in r.fs.files <==> q in fs.files)
    ensures var r := GroupOutcome(fs, tempDir, group, n, options, lib, cache);
            r.pdf.Some? ==> exists p :: p in group && ValidImage(fs, p)
  {
    var valid := ValidImages(fs, group);
    ValidImagesMembers(fs, group);
    if group != [] && valid != [] {
      assert valid[0] in valid;
    }
  }

  /** The serialised run of the pool: the `(index, path)` pairs collected so far,
      the file system and the image cache. */
  datatype RunState = RunState(temps: seq<(nat, Path)>, fs: FileSystem, cache: Cache<Path, Image>)

  predicate OrderFits(order: seq<nat>, groupCount: nat) {
    forall j :: 0 <= j < |order| ==> order[j] < groupCount
  }

  /** The groups `order[0..k]` run one after another, the successes collected in
      that order. */
  function RunGroups(fs: FileSystem, tempDir: Path, groups: seq<seq<Path>>, order: seq<nat>, k: nat,
                     options: ConversionOptions, lib: ImageLib, cache: Cache<Path, Image>): RunState
    requires k <= |order| && OrderFits(order, |groups|)
  {
    if k == 0 then RunState([], fs, cache)
    else
      var st := RunGroups(fs, tempDir, groups, order, k - 1, options, lib, cache);
      var n := order[k - 1];
      var r := GroupOutcome(st.fs, tempDir, groups[n], n, options, lib, st.cache);
      RunState(st.temps + (if r.pdf.Some? then [(n, r.pdf.value)] else []), r.fs, r.cache)
  }

  function Indexes(temps: seq<(nat, Path)>): seq<nat> {
    seq(|temps|, j requires 0 <= j < |temps| => temps[j].0)
  }

  /** One more group adds at most its own pair. */
  lemma RunGroupsStep(fs: FileSystem, tempDir: Path, groups: seq<seq<Path>>, order: seq<nat>, k: nat,
                      options: ConversionOptions, lib: ImageLib, cache: Cache<Path, Image>)
    requires 0 < k <= |order| && OrderFits(order, |groups|)
    ensures var before := RunGroups(fs, tempDir, groups, order, k - 1, options, lib, cache).temps;
            var after := RunGroups(fs, tempDir, groups, order, k, options, lib, cache).temps;
            after == before || after == before + [(order[k - 1], TempPath(tempDir, order[k - 1]))]
  {
    var st := RunGroups(fs, tempDir, groups, order, k - 1, options, lib, cache);
    var n := order[k - 1];
    GroupOutcomeSpec(st.fs, tempDir, groups[n], n, options, lib, st.cache);
    assert st.temps + [] == st.temps;
  }

  /** Every collected pair names a group that ran and that group's own temporary
      file, each group at most once. */
  lemma {:induction false} RunGroupsSpec(fs: FileSystem, tempDir: Path, groups: seq<seq<Path>>, order: seq<nat>, k: nat,
                                         options: ConversionOptions, lib: ImageLib, cache: Cache<Path, Image>)
    requires k <= |order| && OrderFits(order, |groups|) && NoDup(order)
    ensures var temps := RunGroups(fs, tempDir, groups, order, k, options, lib, cache).temps;
            |temps| <= k && NoDup(Indexes(temps))
            && (forall j :: 0 <= j < |temps| ==>
                  temps[j].0 in order[..k] && temps[j].1 == TempPath(tempDir, temps[j].0))
  {
    if k > 0 {
      RunGroupsSpec(fs, tempDir, groups, order, k - 1, options, lib, cache);
      RunGroupsStep(fs, tempDir, groups, order, k, options, lib, cache);
      var before := RunGroups(fs, tempDir, groups, order, k - 1, options, lib, cache).temps;
      var after := RunGroups(fs, tempDir, groups, order, k, options, lib, cache).temps;
      var n := order[k - 1];
      assert order[..k] == order[..k - 1] + [n];
      if after != before {
        assert Indexes(after) == Indexes(before) + [n];
        forall j | 0 <= j < |before| ensures Indexes(before)[j] != n {
          var i :| 0 <= i < k - 1 && order[..k - 1][i] == before[j].0;
          assert order[i] == before[j].0;
        }
        NoDupSnoc(Indexes(before), n);
      }
    }
  }

  /** Running the groups keeps the image cache a well-formed dict of at most 50
      entries. */
  lemma {:induction false} RunGroupsCacheBounded(fs: FileSystem, tempDir: Path, groups: seq<seq<Path>>, order: seq<nat>,
                                                 k: nat, options: ConversionOptions, lib: ImageLib,
                                                 cache: Cache<Path, Image>)
    requires k <= |order| && OrderFits(order, |groups|)
    requires FifoCache.Valid(cache) && Size(cache) <= ImageCacheCapacity
    ensures var st := RunGroups(fs, tempDir, groups, order, k, options, lib, cache);
            FifoCache.Valid(st.cache) && Size(st.cache) <= ImageCacheCapacity
  {
    if k > 0 {
      RunGroupsCacheBounded(fs, tempDir, groups, order, k - 1, options, lib, cache);
      var st := RunGroups(fs, tempDir, groups, order, k - 1, options, lib, cache);
      var n := order[k - 1];
      var valid := ValidImages(st.fs, groups[n]);
      if groups[n] != [] && valid != [] {
        LoadedImagesBounded(st.fs, valid, st.cache, options, lib);
      }
    }
  }

  /** The order of `temp_pdfs.sort(key=lambda x: x[0])`. */
  function GroupIndexLe(a: (nat, Path), b: (nat, Path)): bool {
    a.0 <= b.0
  }

  function Paths(temps: seq<(nat, Path)>): seq<Path> {
    seq(|temps|, j requires 0 <= j < |temps| => temps[j].1)
  }

  /** Sorting the results puts them in group order and keeps every pair; the
      following `list(set(...))` keeps exactly the same temporary paths, in an
      order of its own. */
  lemma SortedTempsSpec(temps: seq<(nat, Path)>, setOrder: seq<Path> -> seq<Path>)
    requires IsSetOrder(setOrder)
    ensures SortedBy(SortBy(temps, GroupIndexLe), GroupIndexLe)
    ensures multiset(SortBy(temps, GroupIndexLe)) == multiset(temps)
    ensures Elems(setOrder(Paths(SortBy(temps, GroupIndexLe)))) == Elems(Paths(temps))
    ensures NoDup(setOrder(Paths(SortBy(temps, GroupIndexLe))))
  {
    var sorted := SortBy(temps, GroupIndexLe);
    SortBySortedPerm(temps, GroupIndexLe);
    PermutationKeepsElems(sorted, temps);
    PathsSubset(sorted, temps);
    PathsSubset(temps, sorted);
  }

  lemma PathsSubset(a: seq<(nat, Path)>, b: seq<(nat, Path)>)
    requires Elems(a) <= Elems(b)
    ensures Elems(Paths(a)) <= Elems(Paths(b))
  {
    forall x | x in Elems(Paths(a)) ensures x in Elems(Paths(b)) {
      var j :| 0 <= j < |a| && a[j].1 == x;
      assert a[j] in Elems(b);
      var i :| 0 <= i < |b| && b[i] == a[j];
      assert Paths(b)[i] == x;
    }
  }

  /** What `convert_images_to_pdf` gives: whether it succeeded, the file system,
      the image cache and the merger's page cache afterwards. */
  datatype PdfOutcome = PdfOutcome(ok: bool, fs: FileSystem, cache: Cache<Path, Image>,
                                   pageCache: Cache<Path, seq<Page>>)

  /** `convert_images_to_pdf` for a processor with `maxWorkers` workers and the
      temporary directory `tempDir`: order the images, size and run the groups in the
      pool's completion order, gate the results, then merge the distinct temporary
      PDFs; the image cache is cleared only after a successful merge. */
  function ImagesToPdfOutcome(fs: FileSystem, paths: seq<Path>, output: Path, options: ConversionOptions,
                              lib: ImageLib, pdfLib: PdfMerger.PdfLibrary,
                              setOrder: seq<Path> -> seq<Path>, completion: nat -> seq<nat>,
                              maxWorkers: int, tempDir: Path, pypdf2Available: bool,
                              cache: Cache<Path, Image>, pageCache: Cache<Path, seq<Page>>): PdfOutcome
    requires IsCompletionOrder(completion)
  {
    var ordered := OrderImages(paths, options.mergeOrder, setOrder);
    var size := OptimalGroupSize(|ordered|, options, maxWorkers);
    if size.PyFloat? || maxWorkers <= 0 then PdfOutcome(false, fs, cache, pageCache)
    else
      var groups := Partition(ordered, size.i);
      var st := RunGroups(fs, tempDir, groups, completion(|groups|), |groups|, options, lib, cache);
      var unique := setOrder(Paths(SortBy(st.temps, GroupIndexLe)));
      if GateResults(st.temps, |groups|) != Some(st.temps) || st.temps == [] || unique == [] then
        PdfOutcome(false, st.fs, st.cache, pageCache)
      else
        var m := PdfMerger.MergeResult(st.fs, unique, output, pdfLib, setOrder, pypdf2Available, pageCache);
        PdfOutcome(m.ok, m.fs, if m.ok then EmptyCache() else st.cache, m.cache)
  }

  /** A float group size or no positive worker count fails with nothing changed;
      a gate that discards the results, or no group that succeeded, fails before
      the merge with the groups' file system and image cache and an untouched page
      cache; otherwise the merge of the distinct temporary PDFs decides, and only
      its success clears the image cache. Success needs an integer group size, a
      positive worker count, at least one image and an existing output. */
  lemma ImagesToPdfOutcomeSpec(fs: FileSystem, paths: seq<Path>, output: Path, options: ConversionOptions,
                               lib: ImageLib, pdfLib: PdfMerger.PdfLibrary,
                               setOrder: seq<Path> -> seq<Path>, completion: nat -> seq<nat>,
                               maxWorkers: int, tempDir: Path, pypdf2Available: bool,
                               cache: Cache<Path, Image>, pageCache: Cache<Path, seq<Page>>)
    requires IsCompletionOrder(completion)
    ensures var o := ImagesToPdfOutcome(fs, paths, output, options, lib, pdfLib, setOrder, completion,
                                        maxWorkers, tempDir, pypdf2Available, cache, pageCache);
            var ordered := OrderImages(paths, options.mergeOrder, setOrder);
            var size := OptimalGroupSize(|ordered|, options, maxWorkers);
            (size.PyFloat? || maxWorkers <= 0 ==> o == PdfOutcome(false, fs, cache, pageCache))
            && (o.ok ==> size.PyInt? && maxWorkers > 0 && ordered != []
                         && o.cache == EmptyCache() && Exists(o.fs, output))
    ensures var o := ImagesToPdfOutcome(fs, paths, output, options, lib, pdfLib, setOrder, completion,
                                        maxWorkers, tempDir, pypdf2Available, cache, pageCache);
            var ordered := OrderImages(paths, options.mergeOrder, setOrder);
            var size := OptimalGroupSize(|ordered|, options, maxWorkers);
            size.PyInt? && maxWorkers > 0 ==>
              var groups := Partition(ordered, size.i);
              var st := RunGroups(fs, tempDir, groups, completion(|groups|), |groups|, options, lib, cache);
              var unique := setOrder(Paths(SortBy(st.temps, GroupIndexLe)));
              var m := PdfMerger.MergeResult(st.fs, unique, output, pdfLib, setOrder, pypdf2Available, pageCache);
              (GateResults(st.temps, |groups|) != Some(st.temps) || st.temps == [] || unique == [] ==>
                 o == PdfOutcome(false, st.fs, st.cache, pageCache))
              && (GateResults(st.temps, |groups|) == Some(st.temps) && st.temps != [] && unique != [] ==>
                    o.ok == m.ok && o.fs == m.fs && o.pageCache == m.cache
                    && o.cache == (if m.ok then EmptyCache() else st.cache))
  {
    var ordered := OrderImages(paths, options.mergeOrder, setOrder);
    var size := OptimalGroupSize(|ordered|, options, maxWorkers);
    if size.PyInt? && maxWorkers > 0 {
      var groups := Partition(ordered, size.i);
      PartitionCount(ordered, size.i);
      var st := RunGroups(fs, tempDir, groups, completion(|groups|), |groups|, options, lib, cache);
      var unique := setOrder(Paths(SortBy(st.temps, GroupIndexLe)));
      PdfMerger.MergeResultSpec(st.fs, unique, output, pdfLib, setOrder, pypdf2Available, pageCache);
    }
  }

  // ------------------------------------------------------------------ class

  class ImageProcessor {
    const maxWorkers: int
    const tempDir: Path
    const merger: PdfMerger.PdfMerger
    var cache: Cache<Path, Image>

    ghost predicate Valid()
      reads this, merger
    {
      FifoCache.Valid(cache) && Size(cache) <= ImageCacheCapacity && merger.Valid()
    }

    /** The processor and its merger share the worker count. */
    constructor (maxWorkers: int, tempDir: Path, pypdf2Available: bool)
      ensures Valid() && fresh(merger)
      ensures this.maxWorkers == maxWorkers && this.tempDir == tempDir
      ensures merger.maxWorkers == maxWorkers && merger.pypdf2Available == pypdf2Available
      ensures cache == EmptyCache() && merger.cache == EmptyCache()
    {
      this.maxWorkers := maxWorkers;
      this.tempDir := tempDir;
      merger := new PdfMerger.PdfMerger(maxWorkers, pypdf2Available);
      cache := EmptyCache();
    }

    /** `_add_to_cache`. */
    method AddToCache(p: Path, img: Image)
      requires Valid()
      modifies this
      ensures Valid() && cache == FifoCache.Insert(old(cache), ImageCacheCapacity, p, img)
      ensures Lookup(cache, p) == Some(img)
    {
      InsertStores(cache, ImageCacheCapacity, p, img);
      InsertBounded(cache, ImageCacheCapacity, p, img);
      cache := FifoCache.Insert(cache, ImageCacheCapacity, p, img);
    }

    /** `_clear_cache`. */
    method ClearCache()
      requires merger.Valid()
      modifies this
      ensures Valid() && cache == EmptyCache()
    {
      cache := EmptyCache();
    }

    /** `_validate_images`. */
    method ValidateImages(fs: FileSystem, paths: seq<Path>) returns (valid: seq<Path>)
      ensures valid == ValidImages(fs, paths)
      ensures forall p :: p in valid <==> p in paths && ValidImage(fs, p)
    {
      valid := [];
      var i := 0;
      while i < |paths|
        invariant 0 <= i <= |paths|
        invariant valid == ValidImages(fs, paths[..i])
      {
        assert paths[..i + 1][..i] == paths[..i];
        if (paths[i] in fs.files && |fs.files[paths[i]]| > 0) || paths[i] in fs.dirs {
          valid := valid + [paths[i]];
        }
        i := i + 1;
      }
      assert paths[..i] == paths;
      ValidImagesMembers(fs, paths);
    }

    /** `_load_images_optimized`. */
    method LoadImages(fs: FileSystem, paths: seq<Path>, options: ConversionOptions, lib: ImageLib)
      returns (images: seq<Image>)
      requires Valid()
      modifies this
      ensures Valid()
      ensures var l := LoadedImages(fs, paths, old(cache), options, lib);
              images == l.images && cache == l.cache
      ensures |images| <= |paths|
    {
      images := [];
      var added: set<Path> := {};
      var i := 0;
      while i < |paths|
        invariant 0 <= i <= |paths| && Valid()
        invariant Loaded(images, cache, added) == LoadedImages(fs, paths[..i], old(cache), options, lib)
      {
        assert paths[..i + 1][..i] == paths[..i];
        var p := paths[i];
        if p in cache.entries {
          if p in added {
            images := images + [cache.entries[p]];
          }
        } else if p in fs.files {
          var decoded := lib.open(fs.files[p]);
          if decoded.Some? {
            var img := ApplyImageOptions(decoded.value, options, lib);
            images := images + [img];
            AddToCache(p, img);
            added := added + {p};
          }
        }
        i := i + 1;
      }
      assert paths[..i] == paths;
      LoadedImagesBounded(fs, paths, old(cache), options, lib);
    }

    /** `_convert_group_to_pdf`. */
    method ConvertGroup(fs: FileSystem, group: seq<Path>, n: nat, options: ConversionOptions, lib: ImageLib)
      returns (pdf: Option<Path>, fs': FileSystem)
      requires Valid()
      modifies this
      ensures Valid()
      ensures GroupResult(pdf, fs', cache) == GroupOutcome(fs, tempDir, group, n, options, lib, old(cache))
    {
      if group == [] {
        return None, fs;
      }
      var valid := ValidateImages(fs, group);
      if valid == [] {
        return None, fs;
      }
      var images := LoadImages(fs, valid, options, lib);
      if images == [] {
        return None, fs;
      }
      var temp := TempPath(tempDir, n);
      var ok;
      var saved := SavedPdf(fs, images, temp, lib);
      ok, fs' := saved.0, saved.1;
      pdf := if ok then Some(temp) else None;
    }

    /** `_convert_groups_parallel`: the pool cannot start without a positive worker
      count; the groups then run in the order `order` the pool happens to pick, the
      successes are collected, and the gate applies. None stands for an exception. */
    method ConvertGroupsParallel(fs: FileSystem, groups: seq<seq<Path>>, options: ConversionOptions,
                                 lib: ImageLib, order: seq<nat>)
      returns (temps: Option<seq<(nat, Path)>>, fs': FileSystem)
      requires Valid() && IsIndexOrder(order, |groups|)
      modifies this
      ensures Valid()
      ensures maxWorkers <= 0 ==> temps.None? && fs' == fs && cache == old(cache)
      ensures maxWorkers > 0 ==>
                var st := RunGroups(fs, tempDir, groups, order, |order|, options, lib, old(cache));
                temps == GateResults(st.temps, |groups|) && fs' == st.fs && cache == st.cache
    {
      if maxWorkers <= 0 {
        return None, fs;
      }
      var collected: seq<(nat, Path)> := [];
      fs' := fs;
      var k := 0;
      while k < |order|
        invariant 0 <= k <= |order| && Valid()
        invariant RunState(collected, fs', cache) == RunGroups(fs, tempDir, groups, order, k, options, lib, old(cache))
      {
        var n := order[k];
        var pdf;
        pdf, fs' := ConvertGroup(fs', groups[n], n, options, lib);
        if pdf.Some? {
          collected := collected + [(n, pdf.value)];
        }
        k := k + 1;
      }
      if |groups| == 0 {
        return None, fs';
      }
      temps := if |collected| < SuccessThreshold(|groups|) then Some([]) else Some(collected);
    }

    /** `convert_images_to_pdf`. `setOrder` is the order `list(set(...))` produces,
      `completion` the order the pool finishes n tasks in. */
    method ConvertImagesToPdf(fs: FileSystem, paths: seq<Path>, output: Path, options: ConversionOptions,
                              lib: ImageLib, pdfLib: PdfMerger.PdfLibrary,
                              setOrder: seq<Path> -> seq<Path>, completion: nat -> seq<nat>)
      returns (ok: bool, fs': FileSystem)
      requires Valid() && IsCompletionOrder(completion)
      modifies this, merger
      ensures Valid()
      ensures PdfOutcome(ok, fs', cache, merger.cache)
              == ImagesToPdfOutcome(fs, paths, output, options, lib, pdfLib, setOrder, completion,
                                    maxWorkers, tempDir, merger.pypdf2Available, old(cache), old(merger.cache))
    {
      var ordered := Deduplicated(paths, setOrder);
      ordered := SortBy(ordered, NaturalLe);
      ordered := ApplyMergeOrder(ordered, options.mergeOrder);
      var size := OptimalGroupSize(|ordered|, options, maxWorkers);
      OptimalGroupSizeSpec(|ordered|, options, maxWorkers);
      if size.PyFloat? {
        return false, fs;
      }
      var groups := Partition(ordered, size.i);
      PartitionSpec(ordered, size.i);
      PartitionCount(ordered, size.i);
      var temps;
      temps, fs' := ConvertGroupsParallel(fs, groups, options, lib, completion(|groups|));
      if temps.None? || temps.value == [] {
        return false, fs';
      }
      var sorted := SortBy(temps.value, GroupIndexLe);
      var unique := setOrder(Paths(sorted));
      if unique == [] {
        return false, fs';
      }
      ok, fs' := merger.MergePdfs(fs', unique, output, pdfLib, setOrder);
      if ok {
        ClearCache();
      }
    }
  }
}
