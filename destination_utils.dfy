/** Where a converted file goes: the destination directory chosen by mode, the
    output file name, the optional per-series subfolder and the final path with
    its `_k` collision suffixes. */
module DestinationUtils {
  import opened Common

  const SameAsSource: string := "M\U{00EA}me dossier que source"
  const DesktopMode: string := "Bureau"
  const DocumentsMode: string := "Documents"
  const CustomMode: string := "Dossier personnalis\U{00E9}"
  const SourcePlaceholder: string := "(Dossier source)"

  /** The keys the functions read from the options dict. */
  datatype DestinationOptions = DestinationOptions(
    mode: string,
    outputFolder: string,
    autoRename: bool,
    createSubfolders: bool,
    overwriteExisting: bool)

  /** What `options.get(key, default)` yields for an empty dict. */
  function DefaultOptions(): DestinationOptions {
    DestinationOptions(CustomMode, "", true, false, false)
  }

  // ------------------------------------------------------- output directory

  /** `get_output_directory`. `savedPath` is `last_output_path` from the saved
      path configuration, "" when there is none. */
  function OutputDirectory(fs: FileSystem, source: Path, options: DestinationOptions, home: Path,
                           savedPath: Path): (r: Path)
    ensures |r| > 0
  {
    if options.mode == SameAsSource then Parent(source)
    else if options.mode == DesktopMode then Join(home, "Desktop")
    else if options.mode == DocumentsMode then Join(home, "Documents")
    else if options.outputFolder != "" && options.outputFolder != SourcePlaceholder then options.outputFolder
    else if savedPath != "" && Exists(fs, savedPath) then savedPath
    else Parent(source)
  }

  /** The mode table: the three named modes, then the custom folder, then the
      saved path, then the source's directory. */
  lemma OutputDirectoryModes(fs: FileSystem, source: Path, options: DestinationOptions, home: Path,
                             savedPath: Path)
    ensures options.mode == SameAsSource ==> OutputDirectory(fs, source, options, home, savedPath) == Parent(source)
    ensures options.mode == DesktopMode ==> OutputDirectory(fs, source, options, home, savedPath) == home + "/Desktop"
    ensures options.mode == DocumentsMode ==> OutputDirectory(fs, source, options, home, savedPath) == home + "/Documents"
    ensures options.mode !in {SameAsSource, DesktopMode, DocumentsMode} ==>
              var r := OutputDirectory(fs, source, options, home, savedPath);
              (options.outputFolder !in {"", SourcePlaceholder} ==> r == options.outputFolder)
              && (options.outputFolder in {"", SourcePlaceholder} && savedPath != "" && Exists(fs, savedPath) ==>
                    r == savedPath)
              && (options.outputFolder in {"", SourcePlaceholder} && (savedPath == "" || !Exists(fs, savedPath)) ==>
                    r == Parent(source))
  {
  }

  // ---------------------------------------------------------- output name

  /** Python's `s.replace(sub, repl)`: every non-overlapping occurrence, left to
      right; an empty `sub` matches before every character and at the end. */
  function ReplaceAll(s: string, sub: string, repl: string): string
    decreases |s|
  {
    if sub == [] then
      if s == [] then repl else repl + [s[0]] + ReplaceAll(s[1..], sub, repl)
    else if IsPrefix(sub, s) then repl + ReplaceAll(s[|sub|..], sub, repl)
    else if s == [] then []
    else [s[0]] + ReplaceAll(s[1..], sub, repl)
  }

  /** Replacing introduces no character that neither the text nor the
      replacement holds. */
  lemma {:induction false} ReplaceAllChars(s: string, sub: string, repl: string, c: char)
    requires c !in s && c !in repl
    ensures c !in ReplaceAll(s, sub, repl)
    decreases |s|
  {
    if s != [] {
      if sub != [] && IsPrefix(sub, s) {
        assert forall i :: 0 <= i < |s[|sub|..]| ==> s[|sub|..][i] == s[i + |sub|];
        ReplaceAllChars(s[|sub|..], sub, repl, c);
      } else {
        assert forall i :: 0 <= i < |s[1..]| ==> s[1..][i] == s[i + 1];
        ReplaceAllChars(s[1..], sub, repl, c);
      }
    }
  }

  /** Text without an occurrence of a non-empty `sub` is returned as is. */
  lemma {:induction false} ReplaceAllAbsent(s: string, sub: string, repl: string)
    requires sub != [] && !Contains(s, sub)
    ensures ReplaceAll(s, sub, repl) == s
    decreases |s|
  {
    if s != [] {
      ReplaceAllAbsent(s[1..], sub, repl);
    }
  }

  /** With an empty `sub` the replacement is inserted |s| + 1 times. */
  lemma {:induction false} ReplaceAllEmptyLength(s: string, repl: string)
    ensures |ReplaceAll(s, [], repl)| == |s| + (|s| + 1) * |repl|
    decreases |s|
  {
    if s != [] {
      ReplaceAllEmptyLength(s[1..], repl);
    }
  }

  /** `text` followed by a suffix `.ext` that does not occur in `text`: only the
      final occurrence is replaced. */
  lemma {:induction false} ReplaceFinalSuffix(text: string, suffix: string, repl: string)
    requires |suffix| >= 2 && suffix[0] == '.' && '.' !in suffix[1..] && !Contains(text, suffix)
    ensures ReplaceAll(text + suffix, suffix, repl) == ReplaceAll(text, suffix, repl) + repl
    decreases |text|
  {
    var s := text + suffix;
    if text == [] {
      assert s == suffix && IsPrefix(suffix, s);
      assert s[|suffix|..] == [];
    } else {
      SuffixNotEarly(text, suffix);
      assert !Contains(text[1..], suffix);
      assert s[1..] == text[1..] + suffix;
      ReplaceFinalSuffix(text[1..], suffix, repl);
    }
  }

  /** A suffix with a single dot, at its front, that `text` does not
      contain, does not start at the front of `text + suffix`. */
  lemma SuffixNotEarly(text: string, suffix: string)
    requires text != [] && |suffix| >= 2 && suffix[0] == '.' && '.' !in suffix[1..] && !Contains(text, suffix)
    ensures !IsPrefix(suffix, text + suffix)
  {
    var s := text + suffix;
    if |suffix| <= |text| {
      assert s[..|suffix|] == text[..|suffix|];
      assert !IsPrefix(suffix, text);
    } else {
      assert suffix[1..][|text| - 1] == suffix[|text|];
      assert s[|text|] == '.' && suffix[|text|] != '.';
    }
  }

  /** `get_output_filename`: the source's stem with ".pdf", or, without
      automatic renaming, the source's name with every occurrence of its suffix
      replaced by ".pdf". */
  function OutputFilename(source: Path, autoRename: bool): (r: string)
    ensures '/' !in r
  {
    var name := Name(source);
    StemSuffix(name);
    if autoRename then Stem(name) + ".pdf"
    else
      ReplaceAllChars(name, Suffix(name), ".pdf", '/');
      ReplaceAll(name, Suffix(name), ".pdf")
  }

  /** With automatic renaming the name is a PDF named after the source's stem. */
  lemma AutoRenamedIsPdf(source: Path)
    requires PathStem(source) != ""
    ensures Suffix(OutputFilename(source, true)) == ".pdf"
    ensures Stem(OutputFilename(source, true)) == PathStem(source)
  {
    SuffixOfDotted(PathStem(source), "pdf");
  }

  /** Without renaming, a name whose suffix occurs only at its end keeps its stem
      and gets ".pdf" in place of the suffix. */
  lemma KeptNameSwapsSuffix(source: Path)
    requires PathSuffix(source) != "" && !Contains(PathStem(source), PathSuffix(source))
    ensures OutputFilename(source, false) == PathStem(source) + ".pdf"
  {
    var name := Name(source);
    StemSuffix(name);
    var suffix := Suffix(name);
    var i := LastIndexOf(name, '.');
    assert suffix == name[i..];
    assert forall j :: 0 <= j < |suffix| - 1 ==> suffix[1..][j] == name[i + 1 + j];
    ReplaceFinalSuffix(Stem(name), suffix, ".pdf");
    ReplaceAllAbsent(Stem(name), suffix, ".pdf");
  }

  /** Without renaming, a name without a suffix gets ".pdf" around every
      character: "abc" becomes ".pdfa.pdfb.pdfc.pdf". */
  lemma KeptNameWithoutSuffix()
    ensures OutputFilename("dir/abc", false) == ".pdfa.pdfb.pdfc.pdf"
  {
    NameOfExample();
    SuffixOfExample();
    ReplaceAllExample();
  }

  lemma NameOfExample()
    ensures Name("dir/abc") == "abc"
  {
    var p := "dir/abc";
    assert LastIndexOf("dir/", '/') == 3;
    assert "dir/a"[..4] == "dir/";
    assert LastIndexOf("dir/a", '/') == 3;
    assert "dir/ab"[..5] == "dir/a";
    assert LastIndexOf("dir/ab", '/') == 3;
    assert p[..6] == "dir/ab";
    assert LastIndexOf(p, '/') == 3;
  }

  lemma SuffixOfExample()
    ensures Suffix("abc") == ""
  {
    assert "a"[..0] == "";
    assert LastIndexOf("a", '.') == -1;
    assert "ab"[..1] == "a";
    assert LastIndexOf("ab", '.') == -1;
    assert "abc"[..2] == "ab";
    assert LastIndexOf("abc", '.') == -1;
  }

  lemma ReplaceAllExample()
    ensures ReplaceAll("abc", "", ".pdf") == ".pdfa.pdfb.pdfc.pdf"
  {
    assert ReplaceAll("", "", ".pdf") == ".pdf";
    assert "c"[1..] == "" && "bc"[1..] == "c" && "abc"[1..] == "bc";
    assert ReplaceAll("c", "", ".pdf") == ".pdfc.pdf";
    assert ReplaceAll("bc", "", ".pdf") == ".pdfb.pdfc.pdf";
  }

  // -------------------------------------------------------------- subfolder

  /** The three series patterns, in the order they are tried. */
  datatype SeriesPattern = BeforeUnderscore | BeforeDash | FirstLetters

  const SeriesPatterns: seq<SeriesPattern> := [BeforeUnderscore, BeforeDash, FirstLetters]

  /** The longest prefix of `s` without `c`. */
  function PrefixWithout(s: string, c: char): (r: string)
    ensures IsPrefix(r, s) && c !in r
    ensures |r| < |s| ==> s[|r|] == c
  {
    if s == [] || s[0] == c then [] else [s[0]] + PrefixWithout(s[1..], c)
  }

  /** The leading run of ASCII letters of `s`. */
  function LetterRun(s: string): (r: string)
    ensures IsPrefix(r, s) && forall i :: 0 <= i < |r| ==> IsAsciiAlpha(r[i])
    ensures |r| < |s| ==> !IsAsciiAlpha(s[|r|])
  {
    if s == [] || !IsAsciiAlpha(s[0]) then [] else [s[0]] + LetterRun(s[1..])
  }

  /** `re.search('([A-Za-z]+)', s).group(1)`: the first run of letters. */
  function FirstLetterRun(s: string): (r: Option<string>)
    ensures r.Some? ==> |r.value| > 0 && forall i :: 0 <= i < |r.value| ==> IsAsciiAlpha(r.value[i])
    ensures r.None? <==> forall i :: 0 <= i < |s| ==> !IsAsciiAlpha(s[i])
    decreases |s|
  {
    if s == [] then None
    else if IsAsciiAlpha(s[0]) then Some(LetterRun(s))
    else
      assert forall i :: 1 <= i < |s| ==> s[i] == s[1..][i - 1];
      FirstLetterRun(s[1..])
  }

  /** `re.search(pattern, stem)`'s group 1, when the pattern matches. */
  function MatchSeries(pattern: SeriesPattern, stem: string): Option<string> {
    match pattern
    case BeforeUnderscore => if stem != [] && stem[0] != '_' then Some(PrefixWithout(stem, '_')) else None
    case BeforeDash => if stem != [] && stem[0] != '-' then Some(PrefixWithout(stem, '-')) else None
    case FirstLetters => FirstLetterRun(stem)
  }

  /** The first pattern of `patterns` that matches. */
  function FirstMatch(patterns: seq<SeriesPattern>, stem: string): Option<string> {
    if patterns == [] then None
    else if MatchSeries(patterns[0], stem).Some? then MatchSeries(patterns[0], stem)
    else FirstMatch(patterns[1..], stem)
  }

  /** The letters pattern is never reached: the first pattern fails only on an
      empty stem or one that starts with '_', and the second matches the latter.
      Every non-empty stem yields the text before its first '_', or, when it
      starts with '_', the text before its first '-'. */
  lemma SeriesPatternsInEffect(stem: string)
    ensures stem == [] ==> FirstMatch(SeriesPatterns, stem).None?
    ensures stem != [] && stem[0] != '_' ==> FirstMatch(SeriesPatterns, stem) == Some(PrefixWithout(stem, '_'))
    ensures stem != [] && stem[0] == '_' ==> FirstMatch(SeriesPatterns, stem) == Some(PrefixWithout(stem, '-'))
  {
    assert SeriesPatterns[1..] == [BeforeDash, FirstLetters];
    assert SeriesPatterns[1..][1..] == [FirstLetters];
    assert SeriesPatterns[1..][1..][1..] == [];
    if stem == [] {
      assert MatchSeries(FirstLetters, stem).None?;
      assert FirstMatch([FirstLetters], stem).None?;
      assert FirstMatch([BeforeDash, FirstLetters], stem).None?;
    }
  }

  /** The stripped text of the first pattern that matches. */
  function SeriesName(stem: string): Option<string> {
    match FirstMatch(SeriesPatterns, stem)
    case None => None
    case Some(m) => Some(Strip(m))
  }

  /** `create_subfolder_if_needed`: the series folder inside `outputDir`,
      created without parents; `outputDir` itself when subfolders are off, no
      pattern matches, the stripped name is empty or the folder cannot be made. */
  function CreateSubfolder(fs: FileSystem, outputDir: Path, source: Path, createSubfolders: bool): (Path, FileSystem) {
    if !createSubfolders then (outputDir, fs)
    else
      match SeriesName(PathStem(source))
      case None => (outputDir, fs)
      case Some(series) =>
        if series == [] then (outputDir, fs)
        else
          match MakeDir(fs, Join(outputDir, series))
          case None => (outputDir, fs)
          case Some(fs1) => (Join(outputDir, series), fs1)
  }

  /** Only a directory may be created, and the folder is never empty. */
  lemma CreateSubfolderKeepsFiles(fs: FileSystem, outputDir: Path, source: Path, createSubfolders: bool)
    requires |outputDir| > 0
    ensures var (dir, fs') := CreateSubfolder(fs, outputDir, source, createSubfolders);
            fs'.files == fs.files && fs.dirs <= fs'.dirs && |dir| > 0
    ensures !createSubfolders ==> CreateSubfolder(fs, outputDir, source, createSubfolders) == (outputDir, fs)
  {
  }

  /** A new folder sits directly in the output directory, is named after the
      series and exists afterwards. */
  lemma CreateSubfolderPlacement(fs: FileSystem, outputDir: Path, source: Path, createSubfolders: bool)
    requires |outputDir| > 0
    ensures var (dir, fs') := CreateSubfolder(fs, outputDir, source, createSubfolders);
            dir != outputDir ==>
              Parent(dir) == outputDir && SeriesName(PathStem(source)) == Some(Name(dir)) && dir in fs'.dirs
  {
    var series := SeriesName(PathStem(source));
    if createSubfolders && series.Some? && series.value != [] {
      var m := FirstMatch(SeriesPatterns, PathStem(source)).value;
      SeriesHasNoSlash(source, m);
      JoinParts(outputDir, series.value);
    }
  }

  lemma SeriesHasNoSlash(source: Path, m: string)
    requires FirstMatch(SeriesPatterns, PathStem(source)) == Some(m)
    ensures '/' !in Strip(m)
  {
    var stem := PathStem(source);
    StemSuffix(Name(source));
    assert '/' !in stem;
    SeriesPatternsInEffect(stem);
    assert '/' !in m;
    var k := StripIsSlice(m);
    assert forall i :: 0 <= i < |Strip(m)| ==> Strip(m)[i] == m[k + i];
  }

  // ------------------------------------------------------------- final path

  /** The existing paths at least `n` characters long. */
  function Longer(fs: FileSystem, n: nat): set<Path> {
    set q | q in fs.files.Keys + fs.dirs && |q| >= n
  }

  lemma LongerShrinks(fs: FileSystem, p: Path, q: Path)
    requires Exists(fs, p) && |q| > |p|
    ensures |Longer(fs, |q|)| < |Longer(fs, |p|)|
  {
    assert Longer(fs, |q|) <= Longer(fs, |p|) - {p};
    SubsetCard(Longer(fs, |q|), Longer(fs, |p|) - {p});
  }

  /** The candidate after a collision: `{stem}_{counter}{suffix}`. */
  function Renamed(name: string, counter: nat): (r: string)
    ensures |r| > |name|
    ensures '/' !in name ==> '/' !in r
  {
    StemSuffix(name);
    Stem(name) + "_" + NatToString(counter) + Suffix(name)
  }

  /** A suffixed name keeps its suffix; the stem grows by `_counter`, so the
      stems accumulate: x, x_1, x_1_2, ... */
  lemma RenamedAccumulates(name: string, counter: nat)
    requires Suffix(name) != ""
    ensures Suffix(Renamed(name, counter)) == Suffix(name)
    ensures Stem(Renamed(name, counter)) == Stem(name) + "_" + NatToString(counter)
  {
    var ext := Suffix(name)[1..];
    SuffixShape(name);
    var st := Stem(name) + "_" + NatToString(counter);
    assert Renamed(name, counter) == st + "." + ext;
    SuffixOfDotted(st, ext);
  }

  /** The collision loop of `get_final_output_path`, from `name` with the next
      counter value `counter`. */
  function FreePath(fs: FileSystem, dir: Path, name: string, counter: nat): Path
    requires '/' !in name && |dir| > 0
    decreases |Longer(fs, |Join(dir, name)|)|
  {
    var p := Join(dir, name);
    if !Exists(fs, p) then p
    else
      var next := Renamed(name, counter);
      LongerShrinks(fs, p, Join(dir, next));
      FreePath(fs, dir, next, counter + 1)
  }

  /** The loop ends on a path that does not exist, in the same directory. */
  lemma {:induction false} FreePathSpec(fs: FileSystem, dir: Path, name: string, counter: nat)
    requires '/' !in name && |dir| > 0
    ensures !Exists(fs, FreePath(fs, dir, name, counter))
    ensures Parent(FreePath(fs, dir, name, counter)) == dir
    ensures !Exists(fs, Join(dir, name)) ==> FreePath(fs, dir, name, counter) == Join(dir, name)
    decreases |Longer(fs, |Join(dir, name)|)|
  {
    var p := Join(dir, name);
    if !Exists(fs, p) {
      JoinParts(dir, name);
    } else {
      var next := Renamed(name, counter);
      LongerShrinks(fs, p, Join(dir, next));
      FreePathSpec(fs, dir, next, counter + 1);
    }
  }

  /** `source.parent / f"{source.stem}.pdf"`, the answer when anything fails. */
  function FallbackPath(source: Path): Path {
    Join(Parent(source), PathStem(source) + ".pdf")
  }

  /** `get_final_output_path`. */
  function FinalOutputPath(fs: FileSystem, source: Path, options: DestinationOptions, home: Path,
                           savedPath: Path): (Path, FileSystem)
  {
    var outDir := OutputDirectory(fs, source, options, home, savedPath);
    var (finalDir, fs1) := CreateSubfolder(fs, outDir, source, options.createSubfolders);
    CreateSubfolderKeepsFiles(fs, outDir, source, options.createSubfolders);
    var filename := OutputFilename(source, options.autoRename);
    match MakeDirs(fs1, finalDir)
    case None => (FallbackPath(source), fs1)
    case Some(fs2) =>
      var p := Join(finalDir, filename);
      if options.overwriteExisting || !Exists(fs2, p) then (p, fs2)
      else (FreePath(fs2, finalDir, filename, 1), fs2)
  }

  /** The final path lies in the destination folder, which exists; it is free
      unless overwriting is allowed, in which case it is the plain name; only
      directories are created; and when the folder cannot be made the source's
      directory is used. */
  lemma FinalOutputPathSpec(fs: FileSystem, source: Path, options: DestinationOptions, home: Path,
                            savedPath: Path)
    ensures var outDir := OutputDirectory(fs, source, options, home, savedPath);
            var (finalDir, fs1) := CreateSubfolder(fs, outDir, source, options.createSubfolders);
            var (r, fs') := FinalOutputPath(fs, source, options, home, savedPath);
            fs'.files == fs.files
            && (MakeDirs(fs1, finalDir).None? ==> r == FallbackPath(source))
            && (MakeDirs(fs1, finalDir).Some? ==>
                  finalDir in fs'.dirs && Parent(r) == finalDir
                  && (options.overwriteExisting ==> r == Join(finalDir, OutputFilename(source, options.autoRename)))
                  && (!options.overwriteExisting ==> !Exists(fs', r)))
  {
    var outDir := OutputDirectory(fs, source, options, home, savedPath);
    var (finalDir, fs1) := CreateSubfolder(fs, outDir, source, options.createSubfolders);
    CreateSubfolderKeepsFiles(fs, outDir, source, options.createSubfolders);
    var filename := OutputFilename(source, options.autoRename);
    var made := MakeDirs(fs1, finalDir);
    if made.Some? {
      JoinParts(finalDir, filename);
      FreePathSpec(made.value, finalDir, filename, 1);
    }
  }

  /** The pattern loop of `create_subfolder_if_needed`, with its `break`. */
  method FindSeriesName(stem: string) returns (series: Option<string>)
    ensures series == SeriesName(stem)
  {
    series := None;
    var i := 0;
    while i < |SeriesPatterns|
      invariant 0 <= i <= |SeriesPatterns|
      invariant series.None? && FirstMatch(SeriesPatterns, stem) == FirstMatch(SeriesPatterns[i..], stem)
    {
      var m := MatchSeries(SeriesPatterns[i], stem);
      assert SeriesPatterns[i..][1..] == SeriesPatterns[i + 1..];
      if m.Some? {
        series := Some(Strip(m.value));
        break;
      }
      i := i + 1;
    }
  }

  /** `create_subfolder_if_needed`. */
  method CreateSubfolderIfNeeded(fs: FileSystem, outputDir: Path, source: Path, createSubfolders: bool)
    returns (dir: Path, fs': FileSystem)
    ensures (dir, fs') == CreateSubfolder(fs, outputDir, source, createSubfolders)
  {
    if !createSubfolders {
      return outputDir, fs;
    }
    var series := FindSeriesName(PathStem(source));
    if series.None? || series.value == [] {
      return outputDir, fs;
    }
    var subfolder := Join(outputDir, series.value);
    var made := MakeDir(fs, subfolder);
    if made.None? {
      return outputDir, fs;
    }
    return subfolder, made.value;
  }

  /** `get_final_output_path`, with its collision loop. */
  method GetFinalOutputPath(fs: FileSystem, source: Path, options: DestinationOptions, home: Path,
                            savedPath: Path)
    returns (finalPath: Path, fs': FileSystem)
    ensures (finalPath, fs') == FinalOutputPath(fs, source, options, home, savedPath)
  {
    var outDir := OutputDirectory(fs, source, options, home, savedPath);
    var finalDir, fs1 := CreateSubfolderIfNeeded(fs, outDir, source, options.createSubfolders);
    CreateSubfolderKeepsFiles(fs, outDir, source, options.createSubfolders);
    var filename := OutputFilename(source, options.autoRename);
    var made := MakeDirs(fs1, finalDir);
    if made.None? {
      return FallbackPath(source), fs1;
    }
    fs' := made.value;
    finalPath := Join(finalDir, filename);
    if !options.overwriteExisting && Exists(fs', finalPath) {
      var counter := 1;
      ghost var name := filename;
      while Exists(fs', finalPath)
        invariant '/' !in name && finalPath == Join(finalDir, name)
        invariant FreePath(fs', finalDir, name, counter) == FreePath(fs', finalDir, filename, 1)
        decreases |Longer(fs', |finalPath|)|
      {
        JoinParts(finalDir, name);
        var stem := PathStem(finalPath);
        var suffix := PathSuffix(finalPath);
        var next := Renamed(name, counter);
        LongerShrinks(fs', finalPath, Join(finalDir, next));
        name := next;
        finalPath := Join(finalDir, stem + "_" + NatToString(counter) + suffix);
        counter := counter + 1;
      }
    }
  }
}
