/** The shell-script side of conversion: the command line for a conversion
    script, the metadata step after it, and the sequential and thread-pool
    runners that tally successes and failures. The scripts themselves run
    outside the model: their exit codes are inputs. */
module ConversionManager {
  import opened Common

  /** The script for each tool type (`FILE_FORMATS` in `config.py`). */
  const FileFormats: map<string, string> :=
    map["epub" := "scripts/epub2pdf.sh", "cbr" := "scripts/cbr2pdf.sh", "cbz" := "scripts/cbz2pdf.sh"]

  /** The conversion options. A missing string option reads as "" except
      `outputDir`, whose absence `convert_single_file` tells apart from "". */
  datatype Options = Options(
    outputDir: Option<string>, recursive: bool, force: bool, grayscale: bool, resize: string,
    zipOutput: bool, cleanTmp: bool, openOutput: bool, verbose: bool,
    editMetadata: bool, autoRename: bool)

  /** The options `build_command` passes on, in the order it appends them. */
  datatype Flag = OutputDir | Recursive | Force | Grayscale | Resize | ZipOutput | CleanTmp | OpenOutput | Verbose

  const FlagOrder: seq<Flag> :=
    [OutputDir, Recursive, Force, Grayscale, Resize, ZipOutput, CleanTmp, OpenOutput, Verbose]

  function FlagName(f: Flag): string {
    match f
    case OutputDir => "--output-dir"
    case Recursive => "--recursive"
    case Force => "--force"
    case Grayscale => "--grayscale"
    case Resize => "--resize"
    case ZipOutput => "--zip-output"
    case CleanTmp => "--clean-tmp"
    case OpenOutput => "--open-output-dir"
    case Verbose => "--verbose"
  }

  /** `--output-dir` and `--resize` are followed by their value. */
  predicate TakesValue(f: Flag) { f == OutputDir || f == Resize }

  /** What the command line shows of one option: a switch on or off, or a
      value ("" when not passed). */
  datatype Setting = On(on: bool) | Text(text: string)

  function SettingOf(o: Options, f: Flag): (s: Setting)
    ensures s.Text? <==> TakesValue(f)
  {
    match f
    case OutputDir => Text(if o.outputDir.Some? then o.outputDir.value else "")
    case Recursive => On(o.recursive)
    case Force => On(o.force)
    case Grayscale => On(o.grayscale)
    case Resize => Text(o.resize)
    case ZipOutput => On(o.zipOutput)
    case CleanTmp => On(o.cleanTmp)
    case OpenOutput => On(o.openOutput)
    case Verbose => On(o.verbose)
  }

  /** The settings of `flags`, in order. */
  function SettingsOf(o: Options, flags: seq<Flag>): (r: seq<Setting>)
    ensures |r| == |flags|
  {
    if flags == [] then [] else [SettingOf(o, flags[0])] + SettingsOf(o, flags[1..])
  }

  function Settings(o: Options): seq<Setting> {
    SettingsOf(o, FlagOrder)
  }

  /** The arguments one option adds: its name when it is on or non-empty,
      then its value for a valued option. */
  function Piece(f: Flag, s: Setting): seq<string> {
    match s
    case On(b) => if b then [FlagName(f)] else []
    case Text(v) => if v != "" then [FlagName(f), v] else []
  }

  /** The arguments of the options `flags`, in order. */
  function EmitAll(o: Options, flags: seq<Flag>): seq<string> {
    if flags == [] then [] else Piece(flags[0], SettingOf(o, flags[0])) + EmitAll(o, flags[1..])
  }

  /** The option part of the command. */
  function Flags(o: Options): seq<string> {
    EmitAll(o, FlagOrder)
  }

  lemma EmitCons(o: Options, f: Flag, rest: seq<Flag>)
    ensures EmitAll(o, [f] + rest) == Piece(f, SettingOf(o, f)) + EmitAll(o, rest)
  {
    assert ([f] + rest)[1..] == rest;
  }

  lemma Assoc9(p1: seq<string>, p2: seq<string>, p3: seq<string>, p4: seq<string>, p5: seq<string>,
               p6: seq<string>, p7: seq<string>, p8: seq<string>, p9: seq<string>)
    ensures p1 + (p2 + (p3 + (p4 + (p5 + (p6 + (p7 + (p8 + (p9 + [])))))))) == p1 + p2 + p3 + p4 + p5 + p6 + p7 + p8 + p9
  {
  }

  lemma HeadAssoc(h: seq<string>, p1: seq<string>, p2: seq<string>, p3: seq<string>, p4: seq<string>,
                  p5: seq<string>, p6: seq<string>, p7: seq<string>, p8: seq<string>, p9: seq<string>)
    ensures h + p1 + p2 + p3 + p4 + p5 + p6 + p7 + p8 + p9
         == h + (p1 + p2 + p3 + p4 + p5 + p6 + p7 + p8 + p9)
  {
  }

  /** The option part, option by option. */
  lemma FlagsPieces(o: Options)
    ensures Flags(o) == Piece(OutputDir, SettingOf(o, OutputDir)) + Piece(Recursive, SettingOf(o, Recursive))
                        + Piece(Force, SettingOf(o, Force)) + Piece(Grayscale, SettingOf(o, Grayscale))
                        + Piece(Resize, SettingOf(o, Resize)) + Piece(ZipOutput, SettingOf(o, ZipOutput))
                        + Piece(CleanTmp, SettingOf(o, CleanTmp)) + Piece(OpenOutput, SettingOf(o, OpenOutput))
                        + Piece(Verbose, SettingOf(o, Verbose))
  {
    var t9: seq<Flag> := [];
    var t8 := [Verbose] + t9;
    var t7 := [OpenOutput] + t8;
    var t6 := [CleanTmp] + t7;
    var t5 := [ZipOutput] + t6;
    var t4 := [Resize] + t5;
    var t3 := [Grayscale] + t4;
    var t2 := [Force] + t3;
    var t1 := [Recursive] + t2;
    var t0 := [OutputDir] + t1;
    assert t0 == FlagOrder;
    var p1, p2, p3 := Piece(OutputDir, SettingOf(o, OutputDir)), Piece(Recursive, SettingOf(o, Recursive)),
                      Piece(Force, SettingOf(o, Force));
    var p4, p5, p6 := Piece(Grayscale, SettingOf(o, Grayscale)), Piece(Resize, SettingOf(o, Resize)),
                      Piece(ZipOutput, SettingOf(o, ZipOutput));
    var p7, p8, p9 := Piece(CleanTmp, SettingOf(o, CleanTmp)), Piece(OpenOutput, SettingOf(o, OpenOutput)),
                      Piece(Verbose, SettingOf(o, Verbose));
    EmitCons(o, OutputDir, t1);
    EmitCons(o, Recursive, t2);
    EmitCons(o, Force, t3);
    EmitCons(o, Grayscale, t4);
    EmitCons(o, Resize, t5);
    EmitCons(o, ZipOutput, t6);
    EmitCons(o, CleanTmp, t7);
    EmitCons(o, OpenOutput, t8);
    EmitCons(o, Verbose, t9);
    assert EmitAll(o, t9) == [];
    assert Flags(o) == p1 + (p2 + (p3 + (p4 + (p5 + (p6 + (p7 + (p8 + (p9 + EmitAll(o, t9)))))))));
    Assoc9(p1, p2, p3, p4, p5, p6, p7, p8, p9);
  }

  /** `build_command`'s result: None for an unknown tool type, otherwise the
      script, the options and the file. */
  function Command(filePath: string, tool: string, o: Options): Option<seq<string>> {
    if tool in FileFormats then Some(["./" + FileFormats[tool]] + Flags(o) + [filePath]) else None
  }

  /** One `if options.get(...)` step of `build_command`: appends the option's
      name, and its value for a valued option, when it is on or non-empty. */
  method AppendOption(cmd: seq<string>, f: Flag, s: Setting) returns (r: seq<string>)
    ensures r == cmd + Piece(f, s)
  {
    r := cmd;
    match s
    case On(on) =>
      if on {
        r := r + [FlagName(f)];
      }
    case Text(v) =>
      if v != "" {
        r := r + [FlagName(f), v];
      }
  }

  /** `build_command`, appending to `cmd` step by step. */
  method BuildCommand(filePath: string, tool: string, options: Options) returns (cmd: Option<seq<string>>)
    ensures cmd == Command(filePath, tool, options)
  {
    if tool !in FileFormats {
      return None;
    }
    var head := ["./" + FileFormats[tool]];
    var c := head;
    c := AppendOption(c, OutputDir, SettingOf(options, OutputDir));
    c := AppendOption(c, Recursive, SettingOf(options, Recursive));
    c := AppendOption(c, Force, SettingOf(options, Force));
    c := AppendOption(c, Grayscale, SettingOf(options, Grayscale));
    c := AppendOption(c, Resize, SettingOf(options, Resize));
    c := AppendOption(c, ZipOutput, SettingOf(options, ZipOutput));
    c := AppendOption(c, CleanTmp, SettingOf(options, CleanTmp));
    c := AppendOption(c, OpenOutput, SettingOf(options, OpenOutput));
    c := AppendOption(c, Verbose, SettingOf(options, Verbose));
    FlagsPieces(options);
    HeadAssoc(head, Piece(OutputDir, SettingOf(options, OutputDir)), Piece(Recursive, SettingOf(options, Recursive)),
              Piece(Force, SettingOf(options, Force)), Piece(Grayscale, SettingOf(options, Grayscale)),
              Piece(Resize, SettingOf(options, Resize)), Piece(ZipOutput, SettingOf(options, ZipOutput)),
              Piece(CleanTmp, SettingOf(options, CleanTmp)), Piece(OpenOutput, SettingOf(options, OpenOutput)),
              Piece(Verbose, SettingOf(options, Verbose)));
    c := c + [filePath];
    return Some(c);
  }

  // ------------------------------------------------------------ reading back

  /** Takes one option off the front of the arguments: its setting and the
      rest. */
  function Take(args: seq<string>, f: Flag): (seq<string>, Setting) {
    if TakesValue(f) then
      if |args| >= 2 && args[0] == FlagName(f) then (args[2..], Text(args[1])) else (args, Text(""))
    else if args != [] && args[0] == FlagName(f) then (args[1..], On(true)) else (args, On(false))
  }

  /** Reads the settings of `flags` back from the arguments, in the order
      they are written. */
  function ParseAll(args: seq<string>, flags: seq<Flag>): seq<Setting> {
    if flags == [] then []
    else
      var t := Take(args, flags[0]);
      [t.1] + ParseAll(t.0, flags[1..])
  }

  function ParseFlags(args: seq<string>): seq<Setting> {
    ParseAll(args, FlagOrder)
  }

  /** No two options share a name. */
  lemma FlagNamesDistinct(f: Flag, g: Flag)
    requires f != g
    ensures FlagName(f) != FlagName(g)
  {
    assert FlagName(f)[2..] != FlagName(g)[2..];
  }

  lemma FlagOrderNoDup()
    ensures NoDup(FlagOrder)
  {
  }

  /** The arguments of `flags` start with the name of one of them. */
  lemma {:induction false} EmitHead(o: Options, flags: seq<Flag>)
    ensures EmitAll(o, flags) != [] ==> exists g :: g in flags && EmitAll(o, flags)[0] == FlagName(g)
  {
    if flags != [] {
      EmitHead(o, flags[1..]);
      var p := Piece(flags[0], SettingOf(o, flags[0]));
      if p != [] {
        assert EmitAll(o, flags)[0] == p[0];
      } else {
        assert EmitAll(o, flags) == EmitAll(o, flags[1..]);
        if EmitAll(o, flags) != [] {
          var g :| g in flags[1..] && EmitAll(o, flags[1..])[0] == FlagName(g);
          assert g in flags;
        }
      }
    }
  }

  /** The first option read back: the names of the later ones cannot be
      taken for it. */
  lemma TakePiece(o: Options, flags: seq<Flag>)
    requires flags != [] && flags[0] !in flags[1..]
    ensures Take(EmitAll(o, flags), flags[0]) == (EmitAll(o, flags[1..]), SettingOf(o, flags[0]))
  {
    var f := flags[0];
    var rest := EmitAll(o, flags[1..]);
    EmitHead(o, flags[1..]);
    if rest != [] {
      var g :| g in flags[1..] && rest[0] == FlagName(g);
      FlagNamesDistinct(f, g);
    }
    if TakesValue(f) {
      TakeValued(f, SettingOf(o, f).text, rest);
    } else {
      TakeSwitch(f, SettingOf(o, f).on, rest);
    }
  }

  /** A valued option is read back from its piece whatever follows, as long
      as what follows does not start with its name. */
  lemma TakeValued(f: Flag, v: string, rest: seq<string>)
    requires TakesValue(f) && (rest == [] || rest[0] != FlagName(f))
    ensures Take(Piece(f, Text(v)) + rest, f) == (rest, Text(v))
  {
    if v == "" {
      assert Piece(f, Text(v)) + rest == rest;
    } else {
      assert (Piece(f, Text(v)) + rest)[2..] == rest;
    }
  }

  /** The same for a switch. */
  lemma TakeSwitch(f: Flag, b: bool, rest: seq<string>)
    requires !TakesValue(f) && (rest == [] || rest[0] != FlagName(f))
    ensures Take(Piece(f, On(b)) + rest, f) == (rest, On(b))
  {
    if !b {
      assert Piece(f, On(b)) + rest == rest;
    } else {
      assert (Piece(f, On(b)) + rest)[1..] == rest;
    }
  }

  lemma {:induction false} ParseEmitAll(o: Options, flags: seq<Flag>)
    requires NoDup(flags)
    ensures ParseAll(EmitAll(o, flags), flags) == SettingsOf(o, flags)
  {
    if flags != [] {
      assert flags[0] !in flags[1..] by {
        forall j | 0 <= j < |flags[1..]| ensures flags[1..][j] != flags[0] {
          assert flags[1..][j] == flags[j + 1];
        }
      }
      assert NoDup(flags[1..]) by {
        forall i, j | 0 <= i < j < |flags[1..]| ensures flags[1..][i] != flags[1..][j] {
          assert flags[1..][i] == flags[i + 1] && flags[1..][j] == flags[j + 1];
        }
      }
      TakePiece(o, flags);
      ParseEmitAll(o, flags[1..]);
    }
  }

  lemma {:induction false} SameSettingsSameArgs(o: Options, o2: Options, flags: seq<Flag>)
    requires SettingsOf(o, flags) == SettingsOf(o2, flags)
    ensures EmitAll(o, flags) == EmitAll(o2, flags)
  {
    if flags != [] {
      assert SettingOf(o, flags[0]) == SettingsOf(o, flags)[0] == SettingsOf(o2, flags)[0] == SettingOf(o2, flags[0]);
      assert SettingsOf(o, flags[1..]) == SettingsOf(o, flags)[1..];
      assert SettingsOf(o2, flags[1..]) == SettingsOf(o2, flags)[1..];
      SameSettingsSameArgs(o, o2, flags[1..]);
    }
  }

  /** The command for a known tool starts with its script and ends with the
      file, and the arguments in between read back as the options' settings:
      each switch appears exactly when it is on and each valued option
      exactly when it is non-empty, followed by its value. So two option sets
      give the same command exactly when their settings agree. */
  lemma CommandSpec(filePath: string, tool: string, o: Options, o2: Options)
    ensures Command(filePath, tool, o).None? <==> tool !in FileFormats
    ensures tool in FileFormats ==>
              var c := Command(filePath, tool, o).value;
              |c| >= 2 && c[0] == "./" + FileFormats[tool] && c[|c| - 1] == filePath
              && ParseFlags(c[1..|c| - 1]) == Settings(o)
    ensures Flags(o) == Flags(o2) <==> Settings(o) == Settings(o2)
  {
    FlagOrderNoDup();
    ParseEmitAll(o, FlagOrder);
    ParseEmitAll(o2, FlagOrder);
    if Settings(o) == Settings(o2) {
      SameSettingsSameArgs(o, o2, FlagOrder);
    }
    if tool in FileFormats {
      var c := Command(filePath, tool, o).value;
      assert c[1..|c| - 1] == Flags(o);
    }
  }

  // ------------------------------------------------------------ one file

  /** `process_metadata`: the path of the PDF after the metadata step.
      `renamed` is what `rename_file_with_metadata` returns and `raises`
      says that a step of the metadata handling raised. */
  function ProcessMetadata(pdfPath: string, options: Options, renamed: Option<string>, raises: bool): (r: string)
    ensures !options.editMetadata && !options.autoRename ==> r == pdfPath
    ensures raises ==> r == pdfPath
    ensures r != pdfPath <==> options.autoRename && !raises && renamed.Some? && renamed.value != "" && renamed.value != pdfPath
    ensures r != pdfPath ==> r == renamed.value
  {
    if !options.editMetadata && !options.autoRename then pdfPath
    else if raises then pdfPath
    else if options.autoRename && renamed.Some? && renamed.value != "" && renamed.value != pdfPath then renamed.value
    else pdfPath
  }

  /** `convert_single_file`: `exit` is the script's exit code, None when
      starting it raised. The metadata step after a success does not change
      the result. */
  function ConvertSingleFile(filePath: string, tool: string, options: Options, exit: Option<int>): bool {
    var cmd := Command(filePath, tool, options);
    cmd.Some? && cmd.value != [] && exit == Some(0)
  }

  lemma ConvertSingleFileSpec(filePath: string, tool: string, options: Options, exit: Option<int>)
    ensures ConvertSingleFile(filePath, tool, options, exit) <==> tool in FileFormats && exit == Some(0)
  {
  }

  // ------------------------------------------------------------ runners

  /** The progress messages handed to the callback. */
  datatype Notice =
    | Converting(path: string, tool: string)
    | Succeeded(path: string)
    | FailedToConvert(path: string)
    | ErrorConverting(path: string)

  /** The callback, as whether it raises on each message. */
  predicate Raises(callback: Option<Notice -> bool>, n: Notice) {
    callback.Some? && callback.value(n)
  }

  datatype Tally = Tally(completed: nat, failed: nat)

  /** The `except` branch: one more failure, then the error message, which
      ends the run with an exception (None) when the callback raises on it. */
  function Caught(t: Tally, path: string, callback: Option<Notice -> bool>): Option<Tally> {
    if Raises(callback, ErrorConverting(path)) then None else Some(t.(failed := t.failed + 1))
  }

  /** One file handled: `announce` is the sequential runner's "Converting"
      message, which the parallel runner does not send. */
  function Step(t: Tally, path: string, tool: string, ok: bool, announce: bool,
                callback: Option<Notice -> bool>): Option<Tally>
  {
    if announce && Raises(callback, Converting(path, tool)) then Caught(t, path, callback)
    else if ok then
      var t' := t.(completed := t.completed + 1);
      if Raises(callback, Succeeded(path)) then Caught(t', path, callback) else Some(t')
    else
      var t' := t.(failed := t.failed + 1);
      if Raises(callback, FailedToConvert(path)) then Caught(t', path, callback) else Some(t')
  }

  predicate InRange(order: seq<nat>, n: nat) {
    forall k :: 0 <= k < |order| ==> order[k] < n
  }

  /** The files handled in the order `order`; None once an exception escapes. */
  function Fold(files: seq<(string, string)>, order: seq<nat>, announce: bool, options: Options,
                exit: nat -> Option<int>, callback: Option<Notice -> bool>): Option<Tally>
    requires InRange(order, |files|)
  {
    if order == [] then Some(Tally(0, 0))
    else
      var prev := Fold(files, order[..|order| - 1], announce, options, exit, callback);
      if prev.None? then None
      else
        var i := order[|order| - 1];
        Step(prev.value, files[i].0, files[i].1, ConvertSingleFile(files[i].0, files[i].1, options, exit(i)),
             announce, callback)
  }

  lemma {:induction false} FoldStaysNone(files: seq<(string, string)>, order: seq<nat>, k: nat, announce: bool,
                                        options: Options, exit: nat -> Option<int>, callback: Option<Notice -> bool>)
    requires InRange(order, |files|) && k <= |order|
    requires Fold(files, order[..k], announce, options, exit, callback).None?
    ensures Fold(files, order, announce, options, exit, callback).None?
    decreases |order| - k
  {
    if k < |order| {
      assert order[..k + 1][..k] == order[..k];
      FoldStaysNone(files, order, k + 1, announce, options, exit, callback);
    } else {
      assert order[..k] == order;
    }
  }

  /** `run_sequential_conversion`: the files in list order. */
  method RunSequential(files: seq<(string, string)>, options: Options, exit: nat -> Option<int>,
                       callback: Option<Notice -> bool>) returns (r: Option<Tally>)
    ensures r == Fold(files, Indices(|files|), true, options, exit, callback)
  {
    var order := Indices(|files|);
    var completed, failed := 0, 0;
    for i := 0 to |files|
      invariant Fold(files, order[..i], true, options, exit, callback) == Some(Tally(completed, failed))
    {
      assert order[..i + 1][..i] == order[..i] && order[i] == i;
      var (path, tool) := files[i];
      assert Fold(files, order[..i + 1], true, options, exit, callback)
          == Step(Tally(completed, failed), path, tool, ConvertSingleFile(path, tool, options, exit(i)), true, callback);
      if Raises(callback, Converting(path, tool)) {
        failed := failed + 1;
        if Raises(callback, ErrorConverting(path)) {
          FoldStaysNone(files, order, i + 1, true, options, exit, callback);
          return None;
        }
        continue;
      }
      var success := ConvertSingleFile(path, tool, options, exit(i));
      if success {
        completed := completed + 1;
        if Raises(callback, Succeeded(path)) {
          failed := failed + 1;
          if Raises(callback, ErrorConverting(path)) {
            FoldStaysNone(files, order, i + 1, true, options, exit, callback);
            return None;
          }
        }
      } else {
        failed := failed + 1;
        if Raises(callback, FailedToConvert(path)) {
          failed := failed + 1;
          if Raises(callback, ErrorConverting(path)) {
            FoldStaysNone(files, order, i + 1, true, options, exit, callback);
            return None;
          }
        }
      }
    }
    assert order[..|files|] == order;
    return Some(Tally(completed, failed));
  }

  /** `run_parallel_conversion`: the results taken in completion order
      `order`, a permutation of the submitted files. A pool of no positive size
      cannot be built, and the error reaches the caller (None). */
  method RunParallel(files: seq<(string, string)>, order: seq<nat>, options: Options, maxWorkers: int,
                     exit: nat -> Option<int>, callback: Option<Notice -> bool>) returns (r: Option<Tally>)
    requires IsIndexOrder(order, |files|)
    ensures maxWorkers <= 0 ==> r.None?
    ensures maxWorkers > 0 ==> r == Fold(files, order, false, options, exit, callback)
  {
    if maxWorkers <= 0 {
      return None;
    }
    var completed, failed := 0, 0;
    for k := 0 to |order|
      invariant Fold(files, order[..k], false, options, exit, callback) == Some(Tally(completed, failed))
    {
      assert order[..k + 1][..k] == order[..k];
      var i := order[k];
      var (path, tool) := files[i];
      assert Fold(files, order[..k + 1], false, options, exit, callback)
          == Step(Tally(completed, failed), path, tool, ConvertSingleFile(path, tool, options, exit(i)), false, callback);
      var result := ConvertSingleFile(path, tool, options, exit(i));
      if result {
        completed := completed + 1;
        if Raises(callback, Succeeded(path)) {
          failed := failed + 1;
          if Raises(callback, ErrorConverting(path)) {
            FoldStaysNone(files, order, k + 1, false, options, exit, callback);
            return None;
          }
        }
      } else {
        failed := failed + 1;
        if Raises(callback, FailedToConvert(path)) {
          failed := failed + 1;
          if Raises(callback, ErrorConverting(path)) {
            FoldStaysNone(files, order, k + 1, false, options, exit, callback);
            return None;
          }
        }
      }
    }
    assert order[..|order|] == order;
    return Some(Tally(completed, failed));
  }

  /** A callback that never raises (or none at all). */
  ghost predicate Quiet(callback: Option<Notice -> bool>) {
    callback.None? || forall n :: !callback.value(n)
  }

  /** How many of the handled files convert. */
  function OkCount(files: seq<(string, string)>, order: seq<nat>, options: Options, exit: nat -> Option<int>): nat
    requires InRange(order, |files|)
  {
    if order == [] then 0
    else
      var i := order[|order| - 1];
      OkCount(files, order[..|order| - 1], options, exit)
      + if ConvertSingleFile(files[i].0, files[i].1, options, exit(i)) then 1 else 0
  }

  lemma {:induction false} FoldQuiet(files: seq<(string, string)>, order: seq<nat>, announce: bool, options: Options,
                                     exit: nat -> Option<int>, callback: Option<Notice -> bool>)
    requires InRange(order, |files|) && Quiet(callback)
    ensures var c := OkCount(files, order, options, exit);
            c <= |order| && Fold(files, order, announce, options, exit, callback) == Some(Tally(c, |order| - c))
  {
    if order != [] {
      FoldQuiet(files, order[..|order| - 1], announce, options, exit, callback);
    }
  }

  /** The count of converting files does not depend on the order. */
  lemma {:induction false} OkCountSet(files: seq<(string, string)>, order: seq<nat>, options: Options,
                                      exit: nat -> Option<int>)
    requires NoDup(order) && InRange(order, |files|)
    ensures OkCount(files, order, options, exit)
         == |set i | 0 <= i < |files| && i in order && ConvertSingleFile(files[i].0, files[i].1, options, exit(i))|
  {
    if order != [] {
      var init, last := order[..|order| - 1], order[|order| - 1];
      assert NoDup(init) && last !in init by {
        forall a | 0 <= a < |init| ensures init[a] != last {
          assert init[a] == order[a];
        }
      }
      OkCountSet(files, init, options, exit);
      Snoc(order);
      var now := set i | 0 <= i < |files| && i in order && ConvertSingleFile(files[i].0, files[i].1, options, exit(i));
      var before := set i | 0 <= i < |files| && i in init && ConvertSingleFile(files[i].0, files[i].1, options, exit(i));
      if ConvertSingleFile(files[last].0, files[last].1, options, exit(last)) {
        assert now == before + {last};
      } else {
        assert now == before;
      }
    }
  }

  /** The files whose tool type is known and whose script exits with 0. */
  ghost function Converted(files: seq<(string, string)>, exit: nat -> Option<int>): set<nat> {
    set i | 0 <= i < |files| && files[i].1 in FileFormats && exit(i) == Some(0)
  }

  /** With a callback that never raises, every file is counted once: as
      completed exactly when its tool type is known and its script exits
      with 0, as failed otherwise, whatever the completion order; so both
      runners give the same tally. */
  lemma TallyWithoutRaising(files: seq<(string, string)>, order: seq<nat>, announce: bool, options: Options,
                            exit: nat -> Option<int>, callback: Option<Notice -> bool>)
    requires IsIndexOrder(order, |files|) && Quiet(callback)
    ensures var r := Fold(files, order, announce, options, exit, callback);
            r.Some? && r.value.completed + r.value.failed == |files|
            && r.value.completed == |Converted(files, exit)|
  {
    FoldQuiet(files, order, announce, options, exit, callback);
    OkCountSet(files, order, options, exit);
    forall i | 0 <= i < |files| ensures ConvertSingleFile(files[i].0, files[i].1, options, exit(i))
                                        <==> files[i].1 in FileFormats && exit(i) == Some(0) {
      ConvertSingleFileSpec(files[i].0, files[i].1, options, exit(i));
    }
    assert (set i | 0 <= i < |files| && i in order && ConvertSingleFile(files[i].0, files[i].1, options, exit(i)))
        == Converted(files, exit);
  }

  lemma SequentialMatchesParallel(files: seq<(string, string)>, order: seq<nat>, options: Options,
                                  exit: nat -> Option<int>, callback: Option<Notice -> bool>)
    requires IsIndexOrder(order, |files|) && Quiet(callback)
    ensures Fold(files, order, false, options, exit, callback)
         == Fold(files, Indices(|files|), true, options, exit, callback)
  {
    IndicesOrder(|files|);
    TallyWithoutRaising(files, order, false, options, exit, callback);
    TallyWithoutRaising(files, Indices(|files|), true, options, exit, callback);
  }

  /** A callback that raises on the success message but not on the error
      message counts a converted file both as completed and as failed. */
  lemma CallbackDoubleCounts(options: Options)
    ensures var cb: Notice -> bool := (n: Notice) => n.Succeeded?;
            Fold([("a.cbz", "cbz")], [0], true, options, (i: nat) => Some(0), Some(cb)) == Some(Tally(1, 1))
  {
    var cb: Notice -> bool := (n: Notice) => n.Succeeded?;
    assert [0][..0] == [];
    assert ConvertSingleFile("a.cbz", "cbz", options, Some(0)) by {
      ConvertSingleFileSpec("a.cbz", "cbz", options, Some(0));
    }
  }
}
