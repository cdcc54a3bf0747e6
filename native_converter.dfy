/** `NativeConverter`: the entry point for one comic archive. It picks the output
    path, extracts the images, renders them to a PDF, reports the outcome as a
    flag and a message, and on success removes the extracted images. */
module NativeConverter {
  import opened Common
  import opened BaseConverter
  import Extractor
  import ImageProcessor
  import PdfMerger
  import FifoCache

  const NoImagesCbr: string := "Aucune image extraite du CBR"
  const NoImagesCbz: string := "Aucune image extraite du CBZ"
  const RenderFailed: string := "\U{00C9}chec de la conversion des images en PDF"
  const PdfNotCreated: string := "Fichier PDF non cr\U{00E9}\U{00E9}"
  const EpubNotImplemented: string := "Conversion EPUB non impl\U{00E9}ment\U{00E9}e (utilisez CBZ/CBR)"
  /** The start of `f"Erreur: {e}"`; the exception's text is not modelled. */
  const ErrorPrefix: string := "Erreur: "
  const SuccessPrefix: string := "Conversion r\U{00E9}ussie: "

  /** `f"Conversion réussie: {n} images"`. */
  function SuccessMessage(n: nat): string {
    SuccessPrefix + NatToString(n) + " images"
  }

  predicate IsSuccessMessage(msg: string) {
    IsPrefix(SuccessPrefix, msg)
  }

  /** The flag can be read back from the message: every success message, and no
      failure message, starts with "Conversion réussie: ". */
  lemma MessagesTellOutcome(n: nat)
    ensures IsSuccessMessage(SuccessMessage(n))
    ensures !IsSuccessMessage(NoImagesCbr) && !IsSuccessMessage(NoImagesCbz)
    ensures !IsSuccessMessage(RenderFailed) && !IsSuccessMessage(PdfNotCreated)
    ensures !IsSuccessMessage(EpubNotImplemented) && !IsSuccessMessage(ErrorPrefix)
  {
    assert SuccessMessage(n)[..|SuccessPrefix|] == SuccessPrefix;
    assert NoImagesCbr[0] != SuccessPrefix[0];
    assert NoImagesCbz[0] != SuccessPrefix[0];
    assert RenderFailed[0] != SuccessPrefix[0];
    assert PdfNotCreated[0] != SuccessPrefix[0];
    assert EpubNotImplemented[11] != SuccessPrefix[11];
  }

  /** The message names the number of images. */
  lemma SuccessMessageInjective(m: nat, n: nat)
    requires m != n
    ensures SuccessMessage(m) != SuccessMessage(n)
  {
    DigitsValueOfNat(m);
    DigitsValueOfNat(n);
    var dm, dn := NatToString(m), NatToString(n);
    var k := |SuccessPrefix|;
    if |dm| == |dn| {
      assert SuccessMessage(m)[k..k + |dm|] == dm;
      assert SuccessMessage(n)[k..k + |dn|] == dn;
    } else {
      assert |SuccessMessage(m)| != |SuccessMessage(n)|;
    }
  }

  // ------------------------------------------------------------ output path

  /** `Path(p).with_suffix(suffix)`; None where pathlib raises (an empty name). */
  function WithSuffix(p: Path, suffix: string): Option<Path> {
    var name := Name(p);
    if name == "" then None else Some(p[..|p| - |name|] + Stem(name) + suffix)
  }

  /** `~/Documents/Livres/mangas`. */
  function LibraryDir(home: Path): Path {
    Join(Join(Join(home, "Documents"), "Livres"), "mangas")
  }

  /** The directory `_get_default_output_path` aims at. */
  function DefaultOutputDir(fs: FileSystem, input: Path, home: Path): Path {
    var parent := Parent(input);
    if Contains(Lower(parent), "mangas") then parent
    else if Exists(fs, LibraryDir(home)) then LibraryDir(home)
    else parent
  }

  /** `_get_default_output_path`: the stem with the new extension in the chosen
      directory, which is created; when that fails, the input path with its
      suffix swapped. None: the fallback itself raised. */
  function DefaultOutputPath(fs: FileSystem, input: Path, extension: string, home: Path): Option<(Path, FileSystem)> {
    var dir := DefaultOutputDir(fs, input, home);
    match MakeDirs(fs, dir)
    case Some(fs1) => Some((Join(dir, Stem(Name(input)) + "." + extension), fs1))
    case None =>
      match WithSuffix(input, "." + extension)
      case None => None
      case Some(p) => Some((p, fs))
  }

  /** The output keeps the input's stem with the new extension. It goes next to
      the input when the input's directory mentions "mangas" in any case, else
      into the library directory when that exists, else next to the input; the
      directory then exists and no file changed. */
  lemma DefaultOutputPathSpec(fs: FileSystem, input: Path, extension: string, home: Path)
    requires '/' !in extension && |home| > 0
    ensures var dir := DefaultOutputDir(fs, input, home);
            MakeDirs(fs, dir).Some? ==>
              var (out, fs') := DefaultOutputPath(fs, input, extension, home).value;
              Name(out) == Stem(Name(input)) + "." + extension && Parent(out) == dir
              && dir in fs'.dirs && fs'.files == fs.files
    ensures Contains(Lower(Parent(input)), "mangas") ==> DefaultOutputDir(fs, input, home) == Parent(input)
    ensures !Contains(Lower(Parent(input)), "mangas") && Exists(fs, LibraryDir(home)) ==>
              DefaultOutputDir(fs, input, home) == LibraryDir(home)
    ensures !Contains(Lower(Parent(input)), "mangas") && !Exists(fs, LibraryDir(home)) ==>
              DefaultOutputDir(fs, input, home) == Parent(input)
    ensures MakeDirs(fs, DefaultOutputDir(fs, input, home)).None? && Name(input) != "" ==>
              DefaultOutputPath(fs, input, extension, home) == Some((WithSuffix(input, "." + extension).value, fs))
  {
    var dir := DefaultOutputDir(fs, input, home);
    var name := Stem(Name(input)) + "." + extension;
    assert '/' !in Stem(Name(input)) by {
      StemSuffix(Name(input));
      forall i | 0 <= i < |Stem(Name(input))| ensures Stem(Name(input))[i] != '/' {
        assert Stem(Name(input))[i] == Name(input)[i];
      }
    }
    forall i | 0 <= i < |name| ensures name[i] != '/' {
      if i > |Stem(Name(input))| { assert name[i] == extension[i - |Stem(Name(input))| - 1]; }
    }
    assert |dir| > 0;
    JoinParts(dir, name);
  }

  // ---------------------------------------------------------------- cleanup

  /** A directory `extract_cbr`/`extract_cbz` made. */
  predicate IsExtractDirName(name: string) {
    Contains(name, "cbr2pdf_") || Contains(name, "cbz2pdf_")
  }

  /** The loop collecting `temp_dirs`: the parents of the images that look like
      extraction directories. */
  function ExtractDirsOf(paths: seq<Path>): seq<Path> {
    if paths == [] then [] else ExtractDirsOf(paths[..|paths| - 1]) + ExtractDirOf(paths[|paths| - 1])
  }

  /** The parent of one image, when it looks like an extraction directory. */
  function ExtractDirOf(p: Path): seq<Path> {
    if IsExtractDirName(Name(Parent(p))) then [Parent(p)] else []
  }

  lemma ExtractDirsOfSnoc(paths: seq<Path>, i: nat)
    requires i < |paths|
    ensures ExtractDirsOf(paths[..i + 1]) == ExtractDirsOf(paths[..i]) + ExtractDirOf(paths[i])
  {
    assert paths[..i + 1][..i] == paths[..i];
  }

  /** A directory is collected exactly when it is the parent of one of the images
      and its name marks it as an extraction directory. */
  lemma {:induction false} ExtractDirsOfMembers(paths: seq<Path>)
    ensures forall d :: d in ExtractDirsOf(paths) <==> exists p :: p in paths && d in ExtractDirOf(p)
  {
    if paths != [] {
      var init, last := paths[..|paths| - 1], paths[|paths| - 1];
      ExtractDirsOfMembers(init);
      assert ExtractDirsOf(paths) == ExtractDirsOf(init) + ExtractDirOf(last);
      Snoc(paths);
      forall d ensures d in ExtractDirsOf(paths) <==> exists p :: p in paths && d in ExtractDirOf(p) {
        if d in ExtractDirsOf(paths) {
          if d in ExtractDirOf(last) {
            assert last in paths;
          } else {
            assert d in ExtractDirsOf(init);
            var p :| p in init && d in ExtractDirOf(p);
            assert p in paths;
          }
        } else {
          assert d !in ExtractDirsOf(init) && d !in ExtractDirOf(last);
        }
      }
    }
  }

  /** The loop over `temp_dirs`: a directory with nothing below it is removed;
      anything else (a file, a directory with entries) stays. */
  function RemoveEmptyDirs(fs: FileSystem, dirs: seq<Path>): FileSystem {
    if dirs == [] then fs
    else
      var before := RemoveEmptyDirs(fs, dirs[..|dirs| - 1]);
      var d := dirs[|dirs| - 1];
      if d in before.dirs && DirIsEmpty(before, d) then before.(dirs := before.dirs - {d}) else before
  }

  /** Only listed directories go, each with nothing left below it; every listed
      directory that was already empty goes; no file changes. */
  lemma {:induction false} RemoveEmptyDirsSpec(fs: FileSystem, dirs: seq<Path>)
    ensures RemoveEmptyDirs(fs, dirs).files == fs.files
    ensures RemoveEmptyDirs(fs, dirs).dirs <= fs.dirs
    ensures forall d :: d in fs.dirs && d !in RemoveEmptyDirs(fs, dirs).dirs ==>
              d in dirs && DirIsEmpty(RemoveEmptyDirs(fs, dirs), d)
    ensures forall d :: d in dirs && d in fs.dirs && DirIsEmpty(fs, d) ==> d !in RemoveEmptyDirs(fs, dirs).dirs
  {
    if dirs != [] {
      var init := dirs[..|dirs| - 1];
      RemoveEmptyDirsSpec(fs, init);
      assert dirs == init + [dirs[|dirs| - 1]];
    }
  }

  /** `_cleanup_temp_files` as a function of the image list; `setOrder` is the
      order the set of directories is walked in. */
  function CleanedUp(fs: FileSystem, paths: seq<Path>, setOrder: seq<Path> -> seq<Path>): FileSystem {
    RemoveEmptyDirs(PdfMerger.DeleteSeq(fs, paths).0, setOrder(ExtractDirsOf(paths)))
  }

  /** The directories visited are exactly the extraction directories holding
      one of the images, whatever order the set is walked in. */
  lemma ExtractDirsVisited(paths: seq<Path>, setOrder: seq<Path> -> seq<Path>)
    requires IsSetOrder(setOrder)
    ensures forall d :: d in setOrder(ExtractDirsOf(paths)) <==> exists p :: p in paths && d in ExtractDirOf(p)
  {
    var order := setOrder(ExtractDirsOf(paths));
    ExtractDirsOfMembers(paths);
    assert Elems(order) == Elems(ExtractDirsOf(paths));
    forall d ensures d in order <==> d in ExtractDirsOf(paths) {
      assert d in order <==> d in Elems(order);
      assert d in ExtractDirsOf(paths) <==> d in Elems(ExtractDirsOf(paths));
    }
  }

  /** Every image file is removed and nothing else; no directory appears. */
  lemma CleanedUpFiles(fs: FileSystem, paths: seq<Path>, setOrder: seq<Path> -> seq<Path>)
    ensures CleanedUp(fs, paths, setOrder).files == fs.files - Elems(paths)
    ensures CleanedUp(fs, paths, setOrder).dirs <= fs.dirs
  {
    PdfMerger.DeleteSeqRemoves(fs, paths);
    RemoveEmptyDirsSpec(PdfMerger.DeleteSeq(fs, paths).0, setOrder(ExtractDirsOf(paths)));
  }

  /** A directory that goes is the extraction directory of one of the images and
      has nothing left below it. */
  lemma CleanedUpRemovesOnlyEmptyExtractDirs(fs: FileSystem, paths: seq<Path>, setOrder: seq<Path> -> seq<Path>)
    requires IsSetOrder(setOrder)
    ensures forall d :: d in fs.dirs && d !in CleanedUp(fs, paths, setOrder).dirs ==>
              (exists p :: p in paths && d in ExtractDirOf(p)) && DirIsEmpty(CleanedUp(fs, paths, setOrder), d)
  {
    PdfMerger.DeleteSeqRemoves(fs, paths);
    RemoveEmptyDirsSpec(PdfMerger.DeleteSeq(fs, paths).0, setOrder(ExtractDirsOf(paths)));
    ExtractDirsVisited(paths, setOrder);
  }

  /** The extraction directory of an image goes when nothing but images was left
      in it. */
  lemma CleanedUpRemovesEmptyExtractDirs(fs: FileSystem, paths: seq<Path>, setOrder: seq<Path> -> seq<Path>)
    requires IsSetOrder(setOrder)
    ensures forall p, d :: p in paths && d in ExtractDirOf(p) && d in fs.dirs
                           && DirIsEmpty(PdfMerger.DeleteSeq(fs, paths).0, d) ==>
              d !in CleanedUp(fs, paths, setOrder).dirs
  {
    PdfMerger.DeleteSeqRemoves(fs, paths);
    RemoveEmptyDirsSpec(PdfMerger.DeleteSeq(fs, paths).0, setOrder(ExtractDirsOf(paths)));
    ExtractDirsVisited(paths, setOrder);
  }

  // --------------------------------------------------------------- the class

  /** The collaborators the model takes as parameters: the random directory
      name, `unar`, the two archive readers, the directory walk, the set and
      pool orders, Pillow and PyPDF2, and the home directory. */
  datatype Environment = Environment(
    hex: string,
    unar: (Path, Path, FileSystem) -> Extractor.UnarRun,
    rarReader: seq<byte> -> Option<Extractor.Archive>,
    zipReader: seq<byte> -> Option<Extractor.Archive>,
    walk: (FileSystem, Path) -> seq<Path>,
    setOrder: seq<Path> -> seq<Path>,
    completion: nat -> seq<nat>,
    imageLib: ImageProcessor.ImageLib,
    pdfLib: PdfMerger.PdfLibrary,
    home: Path)

  ghost predicate EnvironmentValid(env: Environment) {
    Extractor.IsUuidPrefix(env.hex) && Extractor.IsWalk(env.walk) && IsSetOrder(env.setOrder)
    && IsCompletionOrder(env.completion) && |env.home| > 0
  }

  /** `if not output_path: output_path = self._get_default_output_path(...)`. */
  function ResolvedOutput(fs: FileSystem, input: Path, output: Path, home: Path): Option<(Path, FileSystem)> {
    if output == "" then DefaultOutputPath(fs, input, "pdf", home) else Some((output, fs))
  }

  /** Choosing the output only ever creates directories. */
  lemma ResolvedOutputKeepsFiles(fs: FileSystem, input: Path, output: Path, home: Path)
    ensures ResolvedOutput(fs, input, output, home).Some? ==>
              ResolvedOutput(fs, input, output, home).value.1.files == fs.files
  {
  }

  /** A CBZ file that does not exist yields no image, whichever output is
      chosen, so `convert_cbz_to_pdf` answers with the no-image message. */
  lemma MissingCbzHasNoImages(fs: FileSystem, cbzPath: Path, output: Path, home: Path, tempDir: Path,
                              hex: string, reader: seq<byte> -> Option<Extractor.Archive>,
                              setOrder: seq<Path> -> seq<Path>)
    requires cbzPath !in fs.files
    ensures ResolvedOutput(fs, cbzPath, output, home).Some? ==>
              Extractor.CbzExtraction(ResolvedOutput(fs, cbzPath, output, home).value.1, tempDir, cbzPath,
                                      hex, reader, setOrder).0 == []
  {
    ResolvedOutputKeepsFiles(fs, cbzPath, output, home);
  }

  class NativeConverter {
    const tempDir: Path
    const extractor: Extractor.Extractor
    const imageProcessor: ImageProcessor.ImageProcessor
    const pdfMerger: PdfMerger.PdfMerger

    ghost predicate Valid()
      reads this, imageProcessor, imageProcessor.merger, pdfMerger
    {
      imageProcessor.Valid() && pdfMerger.Valid() && extractor.tempDir == tempDir
    }

    /** Each component is built with the same worker count and shares the
      temporary directory. */
    constructor (maxWorkers: int, tempDir: Path, pypdf2Available: bool)
      ensures Valid() && this.tempDir == tempDir
      ensures fresh(imageProcessor) && fresh(imageProcessor.merger) && fresh(pdfMerger)
      ensures imageProcessor.maxWorkers == maxWorkers && imageProcessor.tempDir == tempDir
      ensures pdfMerger.maxWorkers == maxWorkers
    {
      this.tempDir := tempDir;
      extractor := new Extractor.Extractor(tempDir);
      imageProcessor := new ImageProcessor.ImageProcessor(maxWorkers, tempDir, pypdf2Available);
      pdfMerger := new PdfMerger.PdfMerger(maxWorkers, pypdf2Available);
    }

    /** What the image processor's `convert_images_to_pdf` gives on the extracted
      images, from the image and page caches it starts with. */
    function Rendered(fs: FileSystem, images: seq<Path>, output: Path, options: ImageProcessor.ConversionOptions,
                      env: Environment, cache: FifoCache.Cache<Path, Image>,
                      pageCache: FifoCache.Cache<Path, seq<Page>>): ImageProcessor.PdfOutcome
      requires EnvironmentValid(env)
    {
      ImageProcessor.ImagesToPdfOutcome(fs, images, output, options, env.imageLib, env.pdfLib, env.setOrder,
                                        env.completion, imageProcessor.maxWorkers, imageProcessor.tempDir,
                                        imageProcessor.merger.pypdf2Available, cache, pageCache)
    }

    /** `_cleanup_temp_files`: delete the images, then the emptied extraction
      directories. */
    method CleanupTempFiles(fs: FileSystem, paths: seq<Path>, setOrder: seq<Path> -> seq<Path>)
      returns (fs': FileSystem)
      ensures fs' == CleanedUp(fs, paths, setOrder)
    {
      var cleaned;
      fs', cleaned := PdfMerger.DeleteAll(fs, paths);
      var candidates := CollectExtractDirs(paths);
      fs' := RemoveDirs(fs', setOrder(candidates));
    }

    /** The loop filling `temp_dirs`. */
    method CollectExtractDirs(paths: seq<Path>) returns (candidates: seq<Path>)
      ensures candidates == ExtractDirsOf(paths)
    {
      candidates := [];
      var i := 0;
      while i < |paths|
        invariant 0 <= i <= |paths|
        invariant candidates == ExtractDirsOf(paths[..i])
      {
        ExtractDirsOfSnoc(paths, i);
        candidates := candidates + ExtractDirOf(paths[i]);
        i := i + 1;
      }
      assert paths[..i] == paths;
    }

    /** The loop over `temp_dirs`. */
    method RemoveDirs(fs: FileSystem, order: seq<Path>) returns (fs': FileSystem)
      ensures fs' == RemoveEmptyDirs(fs, order)
    {
      fs' := fs;
      var i := 0;
      while i < |order|
        invariant 0 <= i <= |order|
        invariant fs' == RemoveEmptyDirs(fs, order[..i])
      {
        assert order[..i + 1][..i] == order[..i];
        var d := order[i];
        if d in fs'.dirs && DirIsEmpty(fs', d) {
          fs' := fs'.(dirs := fs'.dirs - {d});
        }
        i := i + 1;
      }
      assert order[..i] == order;
    }

    /** `convert_cbr_to_pdf`. */
    method ConvertCbr(fs: FileSystem, cbrPath: Path, outputPath: Path,
                      options: ImageProcessor.ConversionOptions, env: Environment)
      returns (ok: bool, msg: string, fs': FileSystem)
      requires Valid() && EnvironmentValid(env)
      modifies imageProcessor, imageProcessor.merger
      ensures Valid()
      ensures ok <==> IsSuccessMessage(msg)
      ensures ResolvedOutput(fs, cbrPath, outputPath, env.home).None? ==>
                !ok && msg == ErrorPrefix && fs' == fs && imageProcessor.cache == old(imageProcessor.cache)
      ensures ResolvedOutput(fs, cbrPath, outputPath, env.home).Some? ==>
                var (out, fs1) := ResolvedOutput(fs, cbrPath, outputPath, env.home).value;
                var (images, fs2) := Extractor.CbrExtraction(fs1, tempDir, cbrPath, env.hex, env.unar,
                                                             env.rarReader, env.walk, env.setOrder);
                (images == [] ==> !ok && msg == NoImagesCbr && fs' == fs2
                                  && imageProcessor.cache == old(imageProcessor.cache)
                                  && imageProcessor.merger.cache == old(imageProcessor.merger.cache))
                && (images != [] && !ok ==> msg == RenderFailed)
                && (ok ==> msg == SuccessMessage(|images|) && fs'.files.Keys !! Elems(images))
      ensures ResolvedOutput(fs, cbrPath, outputPath, env.home).Some? ==>
                var (out, fs1) := ResolvedOutput(fs, cbrPath, outputPath, env.home).value;
                var (images, fs2) := Extractor.CbrExtraction(fs1, tempDir, cbrPath, env.hex, env.unar,
                                                             env.rarReader, env.walk, env.setOrder);
                var r := Rendered(fs2, images, out, options, env, old(imageProcessor.cache),
                                  old(imageProcessor.merger.cache));
                images != [] ==>
                  (ok <==> r.ok)
                  && imageProcessor.cache == r.cache && imageProcessor.merger.cache == r.pageCache
                  && (!ok ==> fs' == r.fs)
                  && (ok ==> fs' == CleanedUp(r.fs, images, env.setOrder))
    {
      var resolved := ResolvedOutput(fs, cbrPath, outputPath, env.home);
      MessagesTellOutcome(0);
      if resolved.None? {
        return false, ErrorPrefix, fs;
      }
      var output := resolved.value.0;
      fs' := resolved.value.1;
      var images;
      images, fs' := extractor.ExtractCbr(fs', cbrPath, env.hex, env.unar, env.rarReader, env.walk, env.setOrder);
      if images == [] {
        return false, NoImagesCbr, fs';
      }
      ok, msg, fs' := RenderImages(fs', images, output, options, env, false);
    }

    /** `convert_cbz_to_pdf`: as for CBR, with the ZIP reader, and with a check
      that the output exists before reporting success. */
    method ConvertCbz(fs: FileSystem, cbzPath: Path, outputPath: Path,
                      options: ImageProcessor.ConversionOptions, env: Environment)
      returns (ok: bool, msg: string, fs': FileSystem)
      requires Valid() && EnvironmentValid(env)
      modifies imageProcessor, imageProcessor.merger
      ensures Valid()
      ensures ok <==> IsSuccessMessage(msg)
      ensures ResolvedOutput(fs, cbzPath, outputPath, env.home).None? ==>
                !ok && msg == ErrorPrefix && fs' == fs && imageProcessor.cache == old(imageProcessor.cache)
      ensures ResolvedOutput(fs, cbzPath, outputPath, env.home).Some? ==>
                var (out, fs1) := ResolvedOutput(fs, cbzPath, outputPath, env.home).value;
                var (images, fs2) := Extractor.CbzExtraction(fs1, tempDir, cbzPath, env.hex, env.zipReader, env.setOrder);
                (images == [] ==> !ok && msg == NoImagesCbz && fs' == fs2
                                  && imageProcessor.cache == old(imageProcessor.cache)
                                  && imageProcessor.merger.cache == old(imageProcessor.merger.cache))
                && (images != [] && !ok ==> msg == RenderFailed || msg == PdfNotCreated)
                && (ok ==> msg == SuccessMessage(|images|) && fs'.files.Keys !! Elems(images))
      ensures ResolvedOutput(fs, cbzPath, outputPath, env.home).Some? ==>
                var (out, fs1) := ResolvedOutput(fs, cbzPath, outputPath, env.home).value;
                var (images, fs2) := Extractor.CbzExtraction(fs1, tempDir, cbzPath, env.hex, env.zipReader, env.setOrder);
                var r := Rendered(fs2, images, out, options, env, old(imageProcessor.cache),
                                  old(imageProcessor.merger.cache));
                images != [] ==>
                  (ok <==> r.ok && Exists(r.fs, out))
                  && (!r.ok ==> msg == RenderFailed)
                  && (r.ok && !ok ==> msg == PdfNotCreated)
                  && imageProcessor.cache == r.cache && imageProcessor.merger.cache == r.pageCache
                  && (!ok ==> fs' == r.fs)
                  && (ok ==> fs' == CleanedUp(r.fs, images, env.setOrder))
    {
      var resolved := ResolvedOutput(fs, cbzPath, outputPath, env.home);
      MessagesTellOutcome(0);
      if resolved.None? {
        return false, ErrorPrefix, fs;
      }
      var output := resolved.value.0;
      fs' := resolved.value.1;
      var images;
      images, fs' := extractor.ExtractCbz(fs', cbzPath, env.hex, env.zipReader, env.setOrder);
      if images == [] {
        return false, NoImagesCbz, fs';
      }
      ok, msg, fs' := RenderImages(fs', images, output, options, env, true);
    }

    /** The part both conversions share once images were extracted: render them
      into the output, check the output exists where `checkOutput` says so (CBZ
      only), then remove the images and their extraction directories. */
    method RenderImages(fs: FileSystem, images: seq<Path>, output: Path,
                        options: ImageProcessor.ConversionOptions, env: Environment, checkOutput: bool)
      returns (ok: bool, msg: string, fs': FileSystem)
      requires Valid() && EnvironmentValid(env)
      modifies imageProcessor, imageProcessor.merger
      ensures Valid()
      ensures ok <==> IsSuccessMessage(msg)
      ensures !ok ==> msg == RenderFailed || (checkOutput && msg == PdfNotCreated)
      ensures ok ==> msg == SuccessMessage(|images|) && fs'.files.Keys !! Elems(images)
      ensures var r := Rendered(fs, images, output, options, env, old(imageProcessor.cache),
                                old(imageProcessor.merger.cache));
              (ok <==> r.ok && (checkOutput ==> Exists(r.fs, output)))
              && (!r.ok ==> msg == RenderFailed)
              && (r.ok && !ok ==> msg == PdfNotCreated)
              && imageProcessor.cache == r.cache && imageProcessor.merger.cache == r.pageCache
              && (!ok ==> fs' == r.fs)
              && (ok ==> fs' == CleanedUp(r.fs, images, env.setOrder))
    {
      MessagesTellOutcome(|images|);
      ghost var r := Rendered(fs, images, output, options, env, imageProcessor.cache, imageProcessor.merger.cache);
      var rendered;
      rendered, fs' := imageProcessor.ConvertImagesToPdf(fs, images, output, options, env.imageLib, env.pdfLib,
                                                          env.setOrder, env.completion);
      assert rendered == r.ok && fs' == r.fs;
      assert imageProcessor.cache == r.cache && imageProcessor.merger.cache == r.pageCache;
      if !rendered {
        return false, RenderFailed, fs';
      }
      if checkOutput && !Exists(fs', output) {
        return false, PdfNotCreated, fs';
      }
      var fs3 := fs';
      fs' := CleanupTempFiles(fs3, images, env.setOrder);
      CleanedUpFiles(fs3, images, env.setOrder);
      return true, SuccessMessage(|images|), fs';
    }

    /** `convert_epub_to_pdf`: not implemented; nothing is read or written. */
    method ConvertEpub(epubPath: Path, outputPath: Path) returns (ok: bool, msg: string)
      ensures !ok && msg == EpubNotImplemented && !IsSuccessMessage(msg)
    {
      MessagesTellOutcome(0);
      return false, EpubNotImplemented;
    }
  }
}
