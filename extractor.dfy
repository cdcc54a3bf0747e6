/** `Extractor`: unpacks a CBZ or CBR archive into a fresh directory under the
    temporary directory and returns the paths of the images it holds. The archive
    readers and the `unar` program are parameters. */
module Extractor {
  import opened Common
  import opened BaseConverter

  /** An archive that could be opened: its entry names in `namelist()` order and,
      for each, the bytes `extract` writes (None when the call raises). */
  datatype Archive = Archive(names: seq<string>, extract: string -> Option<seq<byte>>)

  /** One run of `unar -o dir archive`: its exit status (None when it timed out
      after 60 seconds or could not be started) and the file system it leaves. */
  datatype UnarRun = UnarRun(code: Option<int>, fs: FileSystem)

  predicate IsHexDigit(c: char) {
    '0' <= c <= '9' || 'a' <= c <= 'f'
  }

  /** `uuid.uuid4().hex[:8]`. */
  predicate IsUuidPrefix(hex: string) {
    |hex| == 8 && forall i :: 0 <= i < |hex| ==> IsHexDigit(hex[i])
  }

  /** `temp_dir / f"{prefix}{hex}"`. */
  function ExtractDir(tempDir: Path, prefix: string, hex: string): Path {
    Join(tempDir, prefix + hex)
  }

  /** The extraction directory sits directly in the temporary directory and its
      name is the prefix followed by the eight hexadecimal characters. */
  lemma ExtractDirShape(tempDir: Path, prefix: string, hex: string)
    requires |tempDir| > 0 && IsUuidPrefix(hex) && '/' !in prefix
    ensures Parent(ExtractDir(tempDir, prefix, hex)) == tempDir
    ensures Name(ExtractDir(tempDir, prefix, hex)) == prefix + hex
  {
    var n := prefix + hex;
    forall i | 0 <= i < |n| ensures n[i] != '/' {
      if i >= |prefix| { assert n[i] == hex[i - |prefix|]; }
    }
    JoinParts(tempDir, n);
  }

  /** `[f for f in all_files if self._is_image_file(f)]`. */
  function ImageEntries(names: seq<string>): (r: seq<string>)
    ensures forall n :: n in r <==> n in names && IsImageFile(n)
  {
    if names == [] then []
    else
      ImageEntries(names[..|names| - 1])
      + (if IsImageFile(names[|names| - 1]) then [names[|names| - 1]] else [])
  }

  /** The directories `extract` creates above an entry: `dir/a` and `dir/a/b` for
      the entry `a/b/c.jpg`. */
  function EntryDirs(dir: Path, n: string): set<Path> {
    set k | 0 < k < |n| && n[k] == '/' :: Join(dir, n[..k])
  }

  /** The directories above an entry lie below the extraction directory, and a
      top-level entry has none. */
  lemma EntryDirsSpec(dir: Path, n: string)
    ensures forall q :: q in EntryDirs(dir, n) ==> Under(q, dir) && q != Join(dir, n)
    ensures '/' !in n ==> EntryDirs(dir, n) == {}
  {
    forall q | q in EntryDirs(dir, n) ensures Under(q, dir) && q != Join(dir, n) {
      var k :| 0 < k < |n| && n[k] == '/' && q == Join(dir, n[..k]);
      assert (dir + "/" + n[..k])[..|dir + "/"|] == dir + "/";
      assert |q| < |Join(dir, n)|;
    }
    if '/' !in n {
      assert forall k :: 0 < k < |n| ==> n[k] != '/';
    }
  }

  /** One call of `extract(n, dir)`: None stands for an entry that cannot be read
      (the call raises); otherwise the directories above the target are created,
      which raises when one of them is a regular file, and writing onto a
      directory raises too. */
  function ExtractEntry(fs: FileSystem, dir: Path, archive: Archive, n: string): FileSystem {
    match archive.extract(n)
    case None => fs
    case Some(bytes) =>
      var ups := EntryDirs(dir, n);
      if ups * fs.files.Keys != {} then fs
      else
        var made := fs.(dirs := fs.dirs + ups);
        if Join(dir, n) in made.dirs then made
        else made.(files := made.files[Join(dir, n) := bytes])
  }

  /** The extraction loop over `entries`: an entry whose extraction raises is
      skipped and the loop goes on. */
  function Extracted(fs: FileSystem, dir: Path, archive: Archive, entries: seq<string>): FileSystem {
    if entries == [] then fs
    else ExtractEntry(Extracted(fs, dir, archive, entries[..|entries| - 1]), dir, archive, entries[|entries| - 1])
  }

  /** Extraction only adds: no file or directory goes; every new directory lies
      above an entry that could be read, and an archive of top-level entries
      creates none; every entry that could be read is written unless its target
      ended up a directory or a file blocks a directory above it; and nothing but
      entry targets is written. */
  lemma {:induction false} ExtractedSpec(fs: FileSystem, dir: Path, archive: Archive, entries: seq<string>)
    ensures var r := Extracted(fs, dir, archive, entries);
            fs.dirs <= r.dirs && fs.files.Keys <= r.files.Keys
    ensures var r := Extracted(fs, dir, archive, entries);
            forall q :: q in r.dirs && q !in fs.dirs ==>
              exists n :: n in entries && archive.extract(n).Some? && q in EntryDirs(dir, n)
    ensures (forall n :: n in entries ==> '/' !in n) ==> Extracted(fs, dir, archive, entries).dirs == fs.dirs
    ensures var r := Extracted(fs, dir, archive, entries);
            forall n :: (n in entries && archive.extract(n).Some? && Join(dir, n) !in r.dirs
                         && EntryDirs(dir, n) * r.files.Keys == {}) ==> Join(dir, n) in r.files
    ensures forall q :: q in Extracted(fs, dir, archive, entries).files ==>
              q in fs.files || exists n :: n in entries && archive.extract(n).Some? && q == Join(dir, n)
  {
    if entries != [] {
      var init, n := entries[..|entries| - 1], entries[|entries| - 1];
      ExtractedSpec(fs, dir, archive, init);
      EntryDirsSpec(dir, n);
      assert entries == init + [n];
      var before := Extracted(fs, dir, archive, init);
      var r := Extracted(fs, dir, archive, entries);
      assert before.dirs <= r.dirs && before.files.Keys <= r.files.Keys;
    }
  }

  /** The loop that keeps `extract_dir / f` when it exists afterwards. */
  function Available(fs: FileSystem, dir: Path, entries: seq<string>): seq<Path> {
    if entries == [] then []
    else
      var n := entries[|entries| - 1];
      Available(fs, dir, entries[..|entries| - 1]) + (if Exists(fs, Join(dir, n)) then [Join(dir, n)] else [])
  }

  lemma AvailableSnoc(fs: FileSystem, dir: Path, entries: seq<string>, i: nat)
    requires i < |entries|
    ensures Available(fs, dir, entries[..i + 1]) ==
              Available(fs, dir, entries[..i]) + (if Exists(fs, Join(dir, entries[i])) then [Join(dir, entries[i])] else [])
  {
    assert entries[..i + 1][..i] == entries[..i];
  }

  lemma {:induction false} AvailableSpec(fs: FileSystem, dir: Path, entries: seq<string>)
    ensures forall p :: p in Available(fs, dir, entries) <==>
              Exists(fs, p) && exists n :: n in entries && p == Join(dir, n)
  {
    if entries != [] {
      var init := entries[..|entries| - 1];
      AvailableSpec(fs, dir, init);
      assert entries == init + [entries[|entries| - 1]];
    }
  }

  /** The common body of the CBZ and RAR readers once the archive is open:
      extract the image entries, keep those whose file exists, `list(set(...))`. */
  function ArchiveResult(fs: FileSystem, dir: Path, archive: Archive, setOrder: seq<Path> -> seq<Path>): (seq<Path>, FileSystem) {
    var entries := ImageEntries(archive.names);
    var fs' := Extracted(fs, dir, archive, entries);
    (setOrder(Available(fs', dir, entries)), fs')
  }

  /** The images returned are each listed once, and they are exactly the image
      entries whose target exists after extraction. */
  lemma ArchiveResultMembers(fs: FileSystem, dir: Path, archive: Archive, setOrder: seq<Path> -> seq<Path>)
    requires IsSetOrder(setOrder)
    ensures NoDup(ArchiveResult(fs, dir, archive, setOrder).0)
    ensures forall p :: p in ArchiveResult(fs, dir, archive, setOrder).0 <==>
              Exists(ArchiveResult(fs, dir, archive, setOrder).1, p)
              && exists n :: n in archive.names && IsImageFile(n) && p == Join(dir, n)
  {
    var entries := ImageEntries(archive.names);
    var fs' := Extracted(fs, dir, archive, entries);
    var found := Available(fs', dir, entries);
    AvailableSpec(fs', dir, entries);
    forall p ensures p in setOrder(found) <==> p in found {
      assert Elems(setOrder(found)) == Elems(found);
      assert p in setOrder(found) <==> p in Elems(setOrder(found));
      assert p in found <==> p in Elems(found);
    }
  }

  /** Every image entry that could be read is among the images returned, unless
      a regular file blocks a directory above it. */
  lemma ArchiveResultComplete(fs: FileSystem, dir: Path, archive: Archive, setOrder: seq<Path> -> seq<Path>)
    requires IsSetOrder(setOrder)
    ensures var (images, fs') := ArchiveResult(fs, dir, archive, setOrder);
            forall n :: (n in archive.names && IsImageFile(n) && archive.extract(n).Some?
                         && EntryDirs(dir, n) * fs'.files.Keys == {}) ==> Join(dir, n) in images
  {
    var entries := ImageEntries(archive.names);
    var fs' := Extracted(fs, dir, archive, entries);
    ExtractedSpec(fs, dir, archive, entries);
    ArchiveResultMembers(fs, dir, archive, setOrder);
    forall n | n in archive.names && IsImageFile(n) && archive.extract(n).Some? && EntryDirs(dir, n) * fs'.files.Keys == {}
      ensures Join(dir, n) in ArchiveResult(fs, dir, archive, setOrder).0
    {
      assert n in entries;
      assert Exists(fs', Join(dir, n));
    }
  }

  /** Extraction removes nothing; the directories it creates lie below the
      extraction directory, above an image entry, and an archive whose image
      entries are all top-level creates none; the files it creates are targets of
      image entries. */
  lemma ArchiveResultWrites(fs: FileSystem, dir: Path, archive: Archive, setOrder: seq<Path> -> seq<Path>)
    ensures var fs' := ArchiveResult(fs, dir, archive, setOrder).1;
            fs.dirs <= fs'.dirs && fs.files.Keys <= fs'.files.Keys
    ensures var fs' := ArchiveResult(fs, dir, archive, setOrder).1;
            forall q :: q in fs'.dirs && q !in fs.dirs ==>
              Under(q, dir) && exists n :: n in archive.names && IsImageFile(n) && q in EntryDirs(dir, n)
    ensures (forall n :: n in archive.names && IsImageFile(n) ==> '/' !in n) ==>
              ArchiveResult(fs, dir, archive, setOrder).1.dirs == fs.dirs
    ensures forall q :: q in ArchiveResult(fs, dir, archive, setOrder).1.files && q !in fs.files ==>
              exists n :: n in archive.names && IsImageFile(n) && q == Join(dir, n)
  {
    var entries := ImageEntries(archive.names);
    var fs' := Extracted(fs, dir, archive, entries);
    ExtractedSpec(fs, dir, archive, entries);
    forall q | q in fs'.dirs && q !in fs.dirs
      ensures Under(q, dir) && exists n :: n in archive.names && IsImageFile(n) && q in EntryDirs(dir, n)
    {
      var n :| n in entries && archive.extract(n).Some? && q in EntryDirs(dir, n);
      EntryDirsSpec(dir, n);
    }
  }

  /** `unar` is trusted only when it exits with status 0 and something appeared
      below the directory (`rglob('*')` is not empty). */
  predicate UnarAccepted(run: UnarRun, dir: Path) {
    run.code == Some(0)
    && ((exists q :: q in run.fs.files && Under(q, dir)) || (exists q :: q in run.fs.dirs && Under(q, dir)))
  }

  /** `walk` lists what `rglob('*')` yields: every file and directory strictly
      below the directory, each once, in an order of its own. */
  ghost predicate IsWalk(walk: (FileSystem, Path) -> seq<Path>) {
    forall fs, dir :: NoDup(walk(fs, dir))
                      && forall q :: q in walk(fs, dir) <==> Exists(fs, q) && Under(q, dir)
  }

  /** The loop of `_get_image_files`: regular files with an image name. */
  function ImageFilesIn(fs: FileSystem, listing: seq<Path>): (r: seq<Path>)
    ensures forall p :: p in r <==> p in listing && p in fs.files && IsImageFile(Name(p))
  {
    if listing == [] then []
    else
      var p := listing[|listing| - 1];
      ImageFilesIn(fs, listing[..|listing| - 1]) + (if p in fs.files && IsImageFile(Name(p)) then [p] else [])
  }

  /** A path built by joining onto `dir` lies below it. */
  lemma JoinUnder(dir: Path, n: string)
    ensures Under(Join(dir, n), dir)
  {
    assert Join(dir, n)[..|dir + "/"|] == dir + "/";
  }

  /** What `extract_cbz` returns and leaves behind. */
  function CbzExtraction(fs: FileSystem, tempDir: Path, cbzPath: Path, hex: string,
                         reader: seq<byte> -> Option<Archive>, setOrder: seq<Path> -> seq<Path>): (seq<Path>, FileSystem)
  {
    var dir := ExtractDir(tempDir, "cbz2pdf_", hex);
    match MakeDir(fs, dir)
    case None => ([], fs)
    case Some(fs1) =>
      if cbzPath !in fs1.files || reader(fs1.files[cbzPath]).None? then ([], fs1)
      else ArchiveResult(fs1, dir, reader(fs1.files[cbzPath]).value, setOrder)
  }

  /** A missing archive gives no image; the images returned are distinct
      existing paths inside the extraction directory. */
  lemma CbzExtractionSpec(fs: FileSystem, tempDir: Path, cbzPath: Path, hex: string,
                          reader: seq<byte> -> Option<Archive>, setOrder: seq<Path> -> seq<Path>)
    requires IsSetOrder(setOrder)
    ensures !Exists(fs, cbzPath) ==> CbzExtraction(fs, tempDir, cbzPath, hex, reader, setOrder).0 == []
    ensures var (paths, fs') := CbzExtraction(fs, tempDir, cbzPath, hex, reader, setOrder);
            NoDup(paths)
            && forall p :: p in paths ==> Exists(fs', p) && Under(p, ExtractDir(tempDir, "cbz2pdf_", hex))
  {
    var dir := ExtractDir(tempDir, "cbz2pdf_", hex);
    var made := MakeDir(fs, dir);
    if made.Some? && cbzPath in made.value.files && reader(made.value.files[cbzPath]).Some? {
      var archive := reader(made.value.files[cbzPath]).value;
      ArchiveResultMembers(made.value, dir, archive, setOrder);
      forall p | p in ArchiveResult(made.value, dir, archive, setOrder).0 ensures Under(p, dir) {
        var n :| n in archive.names && IsImageFile(n) && p == Join(dir, n);
        JoinUnder(dir, n);
      }
    }
  }

  /** What `extract_cbr` returns and leaves behind. */
  function CbrExtraction(fs: FileSystem, tempDir: Path, cbrPath: Path, hex: string,
                         unar: (Path, Path, FileSystem) -> UnarRun, reader: seq<byte> -> Option<Archive>,
                         walk: (FileSystem, Path) -> seq<Path>, setOrder: seq<Path> -> seq<Path>): (seq<Path>, FileSystem)
  {
    var dir := ExtractDir(tempDir, "cbr2pdf_", hex);
    match MakeDir(fs, dir)
    case None => ([], fs)
    case Some(fs1) =>
      var run := unar(cbrPath, dir, fs1);
      if UnarAccepted(run, dir) then (setOrder(ImageFilesIn(run.fs, walk(run.fs, dir))), run.fs)
      else if cbrPath !in run.fs.files || reader(run.fs.files[cbrPath]).None? then ([], run.fs)
      else ArchiveResult(run.fs, dir, reader(run.fs.files[cbrPath]).value, setOrder)
  }

  /** The images returned are distinct existing paths inside the extraction
      directory; when `unar`'s output is accepted they are exactly the regular
      image files below that directory. */
  lemma CbrExtractionSpec(fs: FileSystem, tempDir: Path, cbrPath: Path, hex: string,
                          unar: (Path, Path, FileSystem) -> UnarRun, reader: seq<byte> -> Option<Archive>,
                          walk: (FileSystem, Path) -> seq<Path>, setOrder: seq<Path> -> seq<Path>)
    requires IsWalk(walk) && IsSetOrder(setOrder)
    ensures var (paths, fs') := CbrExtraction(fs, tempDir, cbrPath, hex, unar, reader, walk, setOrder);
            NoDup(paths)
            && forall p :: p in paths ==> Exists(fs', p) && Under(p, ExtractDir(tempDir, "cbr2pdf_", hex))
    ensures var dir := ExtractDir(tempDir, "cbr2pdf_", hex);
            MakeDir(fs, dir).Some? && UnarAccepted(unar(cbrPath, dir, MakeDir(fs, dir).value), dir) ==>
              var (paths, fs') := CbrExtraction(fs, tempDir, cbrPath, hex, unar, reader, walk, setOrder);
              forall p :: p in paths <==> p in fs'.files && Under(p, dir) && IsImageFile(Name(p))
  {
    var dir := ExtractDir(tempDir, "cbr2pdf_", hex);
    var made := MakeDir(fs, dir);
    if made.Some? {
      var run := unar(cbrPath, dir, made.value);
      if UnarAccepted(run, dir) {
        var listing := walk(run.fs, dir);
        var found := ImageFilesIn(run.fs, listing);
        forall p ensures p in setOrder(found) <==> p in run.fs.files && Under(p, dir) && IsImageFile(Name(p)) {
          assert Elems(setOrder(found)) == Elems(found);
          assert p in setOrder(found) <==> p in Elems(setOrder(found));
          assert p in found <==> p in Elems(found);
          assert p in listing <==> Exists(run.fs, p) && Under(p, dir);
        }
      } else if cbrPath in run.fs.files && reader(run.fs.files[cbrPath]).Some? {
        var archive := reader(run.fs.files[cbrPath]).value;
        ArchiveResultMembers(run.fs, dir, archive, setOrder);
        forall p | p in ArchiveResult(run.fs, dir, archive, setOrder).0 ensures Under(p, dir) {
          var n :| n in archive.names && IsImageFile(n) && p == Join(dir, n);
          JoinUnder(dir, n);
        }
      }
    }
  }

  class Extractor {
    const tempDir: Path

    constructor (tempDir: Path)
      ensures this.tempDir == tempDir
    {
      this.tempDir := tempDir;
    }

    /** The extraction and collection loops shared by both readers. */
    method ExtractImages(fs: FileSystem, dir: Path, archive: Archive, setOrder: seq<Path> -> seq<Path>)
      returns (paths: seq<Path>, fs': FileSystem)
      ensures (paths, fs') == ArchiveResult(fs, dir, archive, setOrder)
    {
      var entries := ImageEntries(archive.names);
      fs' := ExtractEntries(fs, dir, archive, entries);
      var found := ListAvailable(fs', dir, entries);
      paths := setOrder(found);
    }

    /** The loop calling `extract` on each image entry. */
    method ExtractEntries(fs: FileSystem, dir: Path, archive: Archive, entries: seq<string>)
      returns (fs': FileSystem)
      ensures fs' == Extracted(fs, dir, archive, entries)
    {
      fs' := fs;
      var i := 0;
      while i < |entries|
        invariant 0 <= i <= |entries|
        invariant fs' == Extracted(fs, dir, archive, entries[..i])
      {
        assert entries[..i + 1][..i] == entries[..i];
        var n := entries[i];
        var bytes := archive.extract(n);
        if bytes.Some? {
          var ups := EntryDirs(dir, n);
          if ups * fs'.files.Keys == {} {
            fs' := fs'.(dirs := fs'.dirs + ups);
            if Join(dir, n) !in fs'.dirs {
              fs' := fs'.(files := fs'.files[Join(dir, n) := bytes.value]);
            }
          }
        }
        i := i + 1;
      }
      assert entries[..i] == entries;
    }

    /** The loop keeping the targets that exist afterwards. */
    method ListAvailable(fs: FileSystem, dir: Path, entries: seq<string>) returns (found: seq<Path>)
      ensures found == Available(fs, dir, entries)
    {
      found := [];
      var i := 0;
      while i < |entries|
        invariant 0 <= i <= |entries|
        invariant found == Available(fs, dir, entries[..i])
      {
        AvailableSnoc(fs, dir, entries, i);
        var target := Join(dir, entries[i]);
        if Exists(fs, target) {
          found := found + [target];
        }
        i := i + 1;
      }
      assert entries[..i] == entries;
    }

    /** `extract_cbz`: make the directory, give up when the archive does not exist
      or cannot be opened (a directory, a broken zip), else extract. */
    method ExtractCbz(fs: FileSystem, cbzPath: Path, hex: string, reader: seq<byte> -> Option<Archive>,
                      setOrder: seq<Path> -> seq<Path>)
      returns (paths: seq<Path>, fs': FileSystem)
      requires IsUuidPrefix(hex)
      ensures (paths, fs') == CbzExtraction(fs, tempDir, cbzPath, hex, reader, setOrder)
    {
      var dir := ExtractDir(tempDir, "cbz2pdf_", hex);
      var made := MakeDir(fs, dir);
      if made.None? {
        return [], fs;
      }
      fs' := made.value;
      if cbzPath !in fs'.files {
        return [], fs';
      }
      var archive := reader(fs'.files[cbzPath]);
      if archive.None? {
        return [], fs';
      }
      paths, fs' := ExtractImages(fs', dir, archive.value, setOrder);
    }

    /** `_extract_with_unrar`: the exit status, then the walk of the directory. */
    method ExtractWithUnar(fs: FileSystem, cbrPath: Path, dir: Path, unar: (Path, Path, FileSystem) -> UnarRun,
                           walk: (FileSystem, Path) -> seq<Path>)
      returns (ok: bool, fs': FileSystem)
      requires IsWalk(walk)
      ensures fs' == unar(cbrPath, dir, fs).fs
      ensures ok <==> UnarAccepted(unar(cbrPath, dir, fs), dir)
    {
      var run := unar(cbrPath, dir, fs);
      fs' := run.fs;
      if run.code != Some(0) {
        return false, fs';
      }
      var listing := walk(fs', dir);
      ok := |listing| > 0;
      if ok {
        assert listing[0] in listing;
      }
    }

    /** `_extract_cbr_with_dir`: the in-process reader. */
    method ExtractCbrWithDir(fs: FileSystem, cbrPath: Path, dir: Path, reader: seq<byte> -> Option<Archive>,
                             setOrder: seq<Path> -> seq<Path>)
      returns (paths: seq<Path>, fs': FileSystem)
      ensures cbrPath !in fs.files || reader(fs.files[cbrPath]).None? ==> paths == [] && fs' == fs
      ensures cbrPath in fs.files && reader(fs.files[cbrPath]).Some? ==>
                (paths, fs') == ArchiveResult(fs, dir, reader(fs.files[cbrPath]).value, setOrder)
    {
      if cbrPath !in fs.files {
        return [], fs;
      }
      var archive := reader(fs.files[cbrPath]);
      if archive.None? {
        return [], fs;
      }
      paths, fs' := ExtractImages(fs, dir, archive.value, setOrder);
    }

    /** `_get_image_files`. */
    method GetImageFiles(fs: FileSystem, dir: Path, walk: (FileSystem, Path) -> seq<Path>,
                         setOrder: seq<Path> -> seq<Path>)
      returns (paths: seq<Path>)
      requires IsWalk(walk) && IsSetOrder(setOrder)
      ensures paths == setOrder(ImageFilesIn(fs, walk(fs, dir)))
      ensures NoDup(paths)
      ensures forall p :: p in paths <==> p in fs.files && Under(p, dir) && IsImageFile(Name(p))
    {
      var listing := walk(fs, dir);
      var found: seq<Path> := [];
      var i := 0;
      while i < |listing|
        invariant 0 <= i <= |listing|
        invariant found == ImageFilesIn(fs, listing[..i])
      {
        assert listing[..i + 1][..i] == listing[..i];
        var p := listing[i];
        if p in fs.files && IsImageFile(Name(p)) {
          found := found + [p];
        }
        i := i + 1;
      }
      assert listing[..i] == listing;
      paths := setOrder(found);
      forall p ensures p in paths <==> p in fs.files && Under(p, dir) && IsImageFile(Name(p)) {
        assert Elems(paths) == Elems(found);
        assert p in paths <==> p in Elems(paths);
        assert p in found <==> p in Elems(found);
        assert p in listing <==> Exists(fs, p) && Under(p, dir);
      }
    }

    /** `extract_cbr`: make the directory, run `unar`, and fall back to the
      in-process reader (on whatever `unar` left behind) unless its output is
      accepted. */
    method ExtractCbr(fs: FileSystem, cbrPath: Path, hex: string,
                      unar: (Path, Path, FileSystem) -> UnarRun, reader: seq<byte> -> Option<Archive>,
                      walk: (FileSystem, Path) -> seq<Path>, setOrder: seq<Path> -> seq<Path>)
      returns (paths: seq<Path>, fs': FileSystem)
      requires IsUuidPrefix(hex) && IsWalk(walk) && IsSetOrder(setOrder)
      ensures (paths, fs') == CbrExtraction(fs, tempDir, cbrPath, hex, unar, reader, walk, setOrder)
    {
      var dir := ExtractDir(tempDir, "cbr2pdf_", hex);
      var made := MakeDir(fs, dir);
      if made.None? {
        return [], fs;
      }
      var accepted;
      accepted, fs' := ExtractWithUnar(made.value, cbrPath, dir, unar, walk);
      if accepted {
        paths := GetImageFiles(fs', dir, walk, setOrder);
        return;
      }
      paths, fs' := ExtractCbrWithDir(fs', cbrPath, dir, reader, setOrder);
    }
  }
}
