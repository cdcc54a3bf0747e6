/** The file catalogue: one record per scanned file, the filters and sorts of
    the file list, the selection flags, the file-information cache and the
    tallies of a conversion run. */
module FileManager {
  import opened Common
  import opened Sorting
  import opened PyCompare
  import opened BaseConverter
  import opened Patterns
  import opened FifoCache

  datatype Status = Pending | Completed | Failed

  /** The dictionary `_create_file_info` builds for a file. */
  datatype FileInfo = FileInfo(
    path: Path, name: string, size: nat, modified: int, extension: string,
    selected: bool, converted: bool, error: Option<string>, pages: nat, status: Status,
    series: string, volume: string, chapter: string)

  // ------------------------------------------------------------ metadata

  /** `\s*[-_]\s*`. */
  const Dash: seq<Token> := [Spaces, OneOf({'-', '_'}), Spaces]

  /** A word whose first letter may be either case, an optional part and a
      captured number after optional spaces: `[Vv]olume\s*(\d+)`. */
  function NumberGroup(lead: seq<Token>, word: string, opt: seq<Token>): seq<Token> {
    lead + Lits(word) + opt + [Spaces, Digits]
  }

  /** `Series - Volume 01 - Chapter 001` after the lazy series group. */
  const VolumeChapterTail: seq<Token> :=
    NumberGroup(Dash + [OneOf({'V', 'v'})], "olume", []) + NumberGroup(Dash + [OneOf({'C', 'c'})], "hapter", [])

  /** `Series Vol.01 Ch.001`. */
  const VolChTail: seq<Token> :=
    NumberGroup([Spaces1, OneOf({'V', 'v'})], "ol", [OptLit('.')])
    + NumberGroup([Spaces1, OneOf({'C', 'c'})], "h", [OptLit('.')])

  /** `Series 01-001`. */
  const NumbersTail: seq<Token> := [Spaces1, Digits, Lit('-'), Digits]

  /** A number group captures its number only. */
  lemma NumberGroupShape(lead: seq<Token>, word: string, opt: seq<Token>)
    requires Plain(lead) && Plain(opt)
    ensures CaptureKinds(NumberGroup(lead, word, opt)) == [Digits]
  {
    LitsArePlain(word);
    var w := lead + Lits(word) + opt;
    assert Plain(w) by {
      forall i | 0 <= i < |w| ensures !Capturing(w[i]) {
        if i < |lead| {
          assert w[i] == lead[i];
        } else if i < |lead| + |word| {
          assert w[i] == Lits(word)[i - |lead|];
        } else {
          assert w[i] == opt[i - |lead| - |word|];
        }
      }
    }
    PlainCapturesNothing(w);
    AppendPlain(w, [Spaces]);
    AppendCapture(w + [Spaces], Digits);
    assert w + [Spaces] + [Digits] == w + [Spaces, Digits];
  }

  lemma VolumeChapterShape()
    ensures CaptureKinds(VolumeChapterTail) == [Digits, Digits]
  {
    NumberGroupShape(Dash + [OneOf({'V', 'v'})], "olume", []);
    NumberGroupShape(Dash + [OneOf({'C', 'c'})], "hapter", []);
    CaptureKindsAppend(NumberGroup(Dash + [OneOf({'V', 'v'})], "olume", []), NumberGroup(Dash + [OneOf({'C', 'c'})], "hapter", []));
  }

  lemma VolChShape()
    ensures CaptureKinds(VolChTail) == [Digits, Digits]
  {
    NumberGroupShape([Spaces1, OneOf({'V', 'v'})], "ol", [OptLit('.')]);
    NumberGroupShape([Spaces1, OneOf({'C', 'c'})], "h", [OptLit('.')]);
    CaptureKindsAppend(NumberGroup([Spaces1, OneOf({'V', 'v'})], "ol", [OptLit('.')]),
                       NumberGroup([Spaces1, OneOf({'C', 'c'})], "h", [OptLit('.')]));
  }

  lemma NumbersShape()
    ensures CaptureKinds(NumbersTail) == [Digits, Digits]
  {
    assert NumbersTail[1..][1..][1..][1..] == [];
  }

  /** Each of the three tails captures the volume and the chapter, both
      `\d+`. */
  lemma TailCaptures()
    ensures CaptureKinds(VolumeChapterTail) == [Digits, Digits] && CaptureKinds(VolChTail) == [Digits, Digits]
    ensures CaptureKinds(NumbersTail) == [Digits, Digits]
  {
    VolumeChapterShape();
    VolChShape();
    NumbersShape();
  }

  /** `_extract_metadata`: (series, volume, chapter) from the first of the
      three patterns that matches the stem, or `(stem, '', '')`. */
  function ExtractMetadata(filename: string): (string, string, string) {
    var stem := Stem(filename);
    TailCaptures();
    var m1 := MatchLazy(stem, VolumeChapterTail);
    if m1.Some? then (Strip(m1.value[0]), "Volume " + m1.value[1], "Chapter " + m1.value[2])
    else
      var m2 := MatchLazy(stem, VolChTail);
      if m2.Some? then (Strip(m2.value[0]), "Vol." + m2.value[1], "Ch." + m2.value[2])
      else
        var m3 := MatchLazy(stem, NumbersTail);
        if m3.Some? then (Strip(m3.value[0]), "Vol." + m3.value[1], "Ch." + m3.value[2])
        else (stem, "", "")
  }

  /** The lazy group and the digit groups of a matched pattern. */
  lemma MatchedGroups(stem: string, toks: seq<Token>)
    requires CaptureKinds(toks) == [Digits, Digits] && MatchLazy(stem, toks).Some?
    ensures var g := MatchLazy(stem, toks).value;
            1 <= |g[0]| <= |stem| && g[0] == stem[..|g[0]|]
            && g[1] != [] && AllDigits(g[1]) && g[2] != [] && AllDigits(g[2])
  {
    MatchLazyGroups(stem, toks);
    var g := MatchLazy(stem, toks).value;
    assert g[1] == g[1..][0] && g[2] == g[1..][1];
    assert Fits(g[1..][0], Digits) && Fits(g[1..][1], Digits);
  }

  /** `text` is one of the two prefixes followed by a non-empty digit run. */
  predicate NumberLabel(text: string, full: string, abbrev: string) {
    Labelled(text, full) || Labelled(text, abbrev)
  }

  predicate Labelled(text: string, prefix: string) {
    |text| > |prefix| && text[..|prefix|] == prefix && AllDigits(text[|prefix|..])
  }

  lemma LabelledDigits(prefix: string, d: string)
    requires d != [] && AllDigits(d)
    ensures Labelled(prefix + d, prefix)
  {
    assert (prefix + d)[..|prefix|] == prefix && (prefix + d)[|prefix|..] == d;
  }

  /** The metadata a matching tail produces. */
  lemma MatchedMetadata(stem: string, toks: seq<Token>, vol: string, ch: string)
    requires CaptureKinds(toks) == [Digits, Digits] && MatchLazy(stem, toks).Some?
    ensures var g := MatchLazy(stem, toks).value;
            StrippedPrefix(Strip(g[0]), stem) && Labelled(vol + g[1], vol) && Labelled(ch + g[2], ch)
            && (vol == "Vol." ==> !Labelled(vol + g[1], "Volume "))
  {
    MatchedGroups(stem, toks);
    var g := MatchLazy(stem, toks).value;
    assert Strip(g[0]) == Strip(stem[..|g[0]|]);
    LabelledDigits(vol, g[1]);
    LabelledDigits(ch, g[2]);
    if vol == "Vol." {
      assert (vol + g[1])[3] == '.';
    }
  }

  /** No pattern matching gives the whole stem and empty volume and chapter;
      otherwise the series is the stripped text before the first pattern
      that matches, and volume and chapter carry that pattern's digits,
      `Volume `/`Chapter ` for the first pattern and `Vol.`/`Ch.` for the
      others. */
  lemma ExtractMetadataSpec(filename: string)
    ensures var (series, volume, chapter) := ExtractMetadata(filename);
            var stem := Stem(filename);
            (volume == "" <==> chapter == "")
            && (volume == "" <==> MatchLazy(stem, VolumeChapterTail).None? && MatchLazy(stem, VolChTail).None?
                                  && MatchLazy(stem, NumbersTail).None?)
            && (volume == "" ==> series == stem)
            && (volume != "" ==>
                  StrippedPrefix(series, stem) && NumberLabel(volume, "Volume ", "Vol.")
                  && NumberLabel(chapter, "Chapter ", "Ch."))
            && (MatchLazy(stem, VolumeChapterTail).Some? <==> Labelled(volume, "Volume "))
  {
    var stem := Stem(filename);
    TailCaptures();
    if MatchLazy(stem, VolumeChapterTail).Some? {
      MatchedMetadata(stem, VolumeChapterTail, "Volume ", "Chapter ");
    } else if MatchLazy(stem, VolChTail).Some? {
      MatchedMetadata(stem, VolChTail, "Vol.", "Ch.");
    } else if MatchLazy(stem, NumbersTail).Some? {
      MatchedMetadata(stem, NumbersTail, "Vol.", "Ch.");
    }
  }

  /** `_natural_sort_key` of the file manager splits on `(\d+)` where the base
      converter splits on `([0-9]+)`: the same key on ASCII names. */
  function NameLe(a: FileInfo, b: FileInfo): bool {
    NaturalLe(a.name, b.name)
  }

  // ------------------------------------------------------------ filtering

  /** A list comprehension `[f for f in files if keep(f)]`. */
  function FilterSeq<T>(s: seq<T>, keep: T -> bool): seq<T> {
    if s == [] then [] else FilterSeq(s[..|s| - 1], keep) + (if keep(s[|s| - 1]) then [s[|s| - 1]] else [])
  }

  /** The kept elements are the elements that pass, each as often as in the
      input. */
  lemma {:induction false} FilterSeqMembers<T>(s: seq<T>, keep: T -> bool, x: T)
    ensures x in FilterSeq(s, keep) <==> x in s && keep(x)
    ensures multiset(FilterSeq(s, keep))[x] == if keep(x) then multiset(s)[x] else 0
  {
    if s != [] {
      FilterSeqMembers(s[..|s| - 1], keep, x);
      Snoc(s);
    }
  }

  /** Two comprehensions in a row keep what passes both; order is kept. */
  lemma {:induction false} FilterSeqTwice<T>(s: seq<T>, p: T -> bool, q: T -> bool, both: T -> bool)
    requires forall x :: both(x) == (p(x) && q(x))
    ensures FilterSeq(FilterSeq(s, p), q) == FilterSeq(s, both)
  {
    if s != [] {
      var init, last := s[..|s| - 1], s[|s| - 1];
      FilterSeqTwice(init, p, q, both);
      var a := FilterSeq(init, p);
      if p(last) {
        assert (a + [last])[..|a|] == a;
      } else {
        assert a + [] == a;
      }
    }
  }

  /** `needle in hay.lower()` with the needle lowered too; an empty needle
      disables the filter. */
  predicate Holds(needle: string, hay: string) {
    Contains(Lower(hay), Lower(needle))
  }

  function SearchKeep(term: string): FileInfo -> bool {
    (f: FileInfo) => term == "" || Holds(term, f.name) || Holds(term, f.series)
  }

  function FieldKeep(filter: string, field: FileInfo -> string): FileInfo -> bool {
    (f: FileInfo) => filter == "" || Holds(filter, field(f))
  }

  function Series(f: FileInfo): string { f.series }
  function Volume(f: FileInfo): string { f.volume }
  function Chapter(f: FileInfo): string { f.chapter }

  /** The four comprehensions of `apply_filters`, in the source's order. */
  function FilteredFiles(files: seq<FileInfo>, search: string, series: string, volume: string, chapter: string): seq<FileInfo> {
    var a := if search != "" then FilterSeq(files, SearchKeep(search)) else files;
    var b := if series != "" then FilterSeq(a, FieldKeep(series, Series)) else a;
    var c := if volume != "" then FilterSeq(b, FieldKeep(volume, Volume)) else b;
    if chapter != "" then FilterSeq(c, FieldKeep(chapter, Chapter)) else c
  }

  predicate KeepAll(f: FileInfo, search: string, series: string, volume: string, chapter: string) {
    SearchKeep(search)(f) && FieldKeep(series, Series)(f) && FieldKeep(volume, Volume)(f)
    && FieldKeep(chapter, Chapter)(f)
  }

  lemma FilterSeqAll<T>(s: seq<T>, keep: T -> bool)
    requires forall x :: keep(x)
    ensures FilterSeq(s, keep) == s
  {
    if s != [] {
      FilterSeqAll(s[..|s| - 1], keep);
    }
  }

  /** A filter guarded by `if value:` is the unguarded one, since an empty
      value keeps everything. */
  lemma GuardedFilter(s: seq<FileInfo>, value: string, field: FileInfo -> string)
    ensures (if value != "" then FilterSeq(s, FieldKeep(value, field)) else s) == FilterSeq(s, FieldKeep(value, field))
  {
    if value == "" {
      FilterSeqAll(s, FieldKeep(value, field));
    }
  }

  /** The filters keep, in their order, exactly the files that satisfy every
      non-empty filter. */
  lemma FilteredFilesSpec(files: seq<FileInfo>, search: string, series: string, volume: string, chapter: string)
    ensures FilteredFiles(files, search, series, volume, chapter)
         == FilterSeq(files, f => KeepAll(f, search, series, volume, chapter))
  {
    var k1 := SearchKeep(search);
    var k2 := FieldKeep(series, Series);
    var k3 := FieldKeep(volume, Volume);
    var k4 := FieldKeep(chapter, Chapter);
    if search == "" {
      FilterSeqAll(files, k1);
    }
    var a := FilterSeq(files, k1);
    GuardedFilter(a, series, Series);
    var b := FilterSeq(a, k2);
    GuardedFilter(b, volume, Volume);
    var c := FilterSeq(b, k3);
    GuardedFilter(c, chapter, Chapter);
    var k12 := (f: FileInfo) => k1(f) && k2(f);
    var k123 := (f: FileInfo) => k12(f) && k3(f);
    var kAll := (f: FileInfo) => KeepAll(f, search, series, volume, chapter);
    FilterSeqTwice(files, k1, k2, k12);
    FilterSeqTwice(files, k12, k3, k123);
    FilterSeqTwice(files, k123, k4, kAll);
  }

  /** The sort keys of `apply_filters`; any other value leaves the order. */
  datatype SortKey = ByName | BySize | ByDate | ByPages | Unsorted(key: string)

  function Size(f: FileInfo): int { f.size }
  function Modified(f: FileInfo): int { f.modified }
  function Pages(f: FileInfo): int { f.pages }

  function FileOrder(key: SortKey, reverse: bool): (FileInfo, FileInfo) -> bool {
    var le := match key
      case ByName => NameLe
      case BySize => ByKey(Size, IntLt)
      case ByDate => ByKey(Modified, IntLt)
      case _ => ByKey(Pages, IntLt);
    if reverse then Flip(le) else le
  }

  lemma FileOrderTotal(key: SortKey, reverse: bool)
    ensures TotalPreorder(FileOrder(key, reverse))
  {
    NaturalLeTotalPreorder();
    assert TotalPreorder(NameLe);
    ByKeyTotalPreorder(Size, IntLt);
    ByKeyTotalPreorder(Modified, IntLt);
    ByKeyTotalPreorder(Pages, IntLt);
    FlipTotalPreorder(NameLe);
    FlipTotalPreorder(ByKey(Size, IntLt));
    FlipTotalPreorder(ByKey(Modified, IntLt));
    FlipTotalPreorder(ByKey(Pages, IntLt));
  }

  /** `apply_filters`: filter, then sort stably by the key. */
  function ApplyFilters(files: seq<FileInfo>, search: string, series: string, volume: string, chapter: string,
                        key: SortKey, reverse: bool): seq<FileInfo> {
    var kept := FilteredFiles(files, search, series, volume, chapter);
    if key.Unsorted? then kept else SortBy(kept, FileOrder(key, reverse))
  }

  /** The result holds each kept file as often as the input does and nothing
      else, ordered by the key (descending when `reverse`); files with equal
      keys keep their order, and an unknown key keeps the input order. */
  lemma ApplyFiltersSpec(files: seq<FileInfo>, search: string, series: string, volume: string, chapter: string,
                         key: SortKey, reverse: bool, x: FileInfo)
    ensures var r := ApplyFilters(files, search, series, volume, chapter, key, reverse);
            multiset(r)[x] == (if KeepAll(x, search, series, volume, chapter) then multiset(files)[x] else 0)
            && (key.Unsorted? ==> r == FilterSeq(files, f => KeepAll(f, search, series, volume, chapter)))
            && (!key.Unsorted? ==>
                  SortedBy(r, FileOrder(key, reverse))
                  && ClassOf(r, x, FileOrder(key, reverse))
                     == ClassOf(FilterSeq(files, f => KeepAll(f, search, series, volume, chapter)), x, FileOrder(key, reverse)))
  {
    FilteredFilesSpec(files, search, series, volume, chapter);
    var keep := (f: FileInfo) => KeepAll(f, search, series, volume, chapter);
    var kept := FilterSeq(files, keep);
    FilterSeqMembers(files, keep, x);
    FileOrderTotal(key, reverse);
    SortBySortedPerm(kept, FileOrder(key, reverse));
    SortByStable(kept, x, FileOrder(key, reverse));
  }

  // ------------------------------------------------------------ selection flags

  function WithSelected(files: seq<FileInfo>, b: bool): (r: seq<FileInfo>)
    ensures |r| == |files| && forall i :: 0 <= i < |files| ==> r[i] == files[i].(selected := b)
  {
    seq(|files|, i requires 0 <= i < |files| => files[i].(selected := b))
  }

  function Inverted(files: seq<FileInfo>): (r: seq<FileInfo>)
    ensures |r| == |files| && forall i :: 0 <= i < |files| ==> r[i] == files[i].(selected := !files[i].selected)
  {
    seq(|files|, i requires 0 <= i < |files| => files[i].(selected := !files[i].selected))
  }

  /** Inverting twice restores every record. */
  lemma InvertTwice(files: seq<FileInfo>)
    ensures Inverted(Inverted(files)) == files
  {
  }

  /** After selecting all, every file is selected and the selected files are
      all files; after deselecting all, none is. */
  lemma SelectAllSpec(files: seq<FileInfo>)
    ensures SelectedFiles(WithSelected(files, true)) == WithSelected(files, true)
    ensures SelectedFiles(WithSelected(files, false)) == []
  {
    var s := WithSelected(files, true);
    FilterSeqAllOf(s);
    var d := WithSelected(files, false);
    FilterSeqNoneOf(d);
  }

  lemma {:induction false} FilterSeqAllOf(s: seq<FileInfo>)
    requires forall i :: 0 <= i < |s| ==> s[i].selected
    ensures SelectedFiles(s) == s
  {
    if s != [] {
      FilterSeqAllOf(s[..|s| - 1]);
      Snoc(s);
    }
  }

  lemma {:induction false} FilterSeqNoneOf(s: seq<FileInfo>)
    requires forall i :: 0 <= i < |s| ==> !s[i].selected
    ensures SelectedFiles(s) == []
  {
    if s != [] {
      FilterSeqNoneOf(s[..|s| - 1]);
    }
  }

  function IsSelected(f: FileInfo): bool { f.selected }

  /** `get_selected_files`: the selected records, in order. */
  function SelectedFiles(files: seq<FileInfo>): seq<FileInfo> {
    FilterSeq(files, IsSelected)
  }

  /** The selected files after an inversion are the ones that were not
      selected before, flipped. */
  lemma InvertedSelection(files: seq<FileInfo>, f: FileInfo)
    ensures f in SelectedFiles(Inverted(files)) <==> f.selected && f.(selected := false) in files
  {
    FilterSeqMembers(Inverted(files), IsSelected, f);
    if f.selected && f.(selected := false) in files {
      var i :| 0 <= i < |files| && files[i] == f.(selected := false);
      assert Inverted(files)[i] == f;
    }
  }

  method SelectAllFiles(files: array<FileInfo>)
    modifies files
    ensures files[..] == WithSelected(old(files[..]), true)
  {
    for i := 0 to files.Length
      invariant forall j :: 0 <= j < i ==> files[j] == old(files[j]).(selected := true)
      invariant forall j :: i <= j < files.Length ==> files[j] == old(files[j])
    {
      files[i] := files[i].(selected := true);
    }
  }

  method DeselectAllFiles(files: array<FileInfo>)
    modifies files
    ensures files[..] == WithSelected(old(files[..]), false)
  {
    for i := 0 to files.Length
      invariant forall j :: 0 <= j < i ==> files[j] == old(files[j]).(selected := false)
      invariant forall j :: i <= j < files.Length ==> files[j] == old(files[j])
    {
      files[i] := files[i].(selected := false);
    }
  }

  method InvertSelection(files: array<FileInfo>)
    modifies files
    ensures files[..] == Inverted(old(files[..]))
  {
    for i := 0 to files.Length
      invariant forall j :: 0 <= j < i ==> files[j] == old(files[j]).(selected := !old(files[j]).selected)
      invariant forall j :: i <= j < files.Length ==> files[j] == old(files[j])
    {
      files[i] := files[i].(selected := !files[i].selected);
    }
  }

  // ------------------------------------------------------------ conversion

  const SupportedExtensions: set<string> := {".cbr", ".cbz", ".epub"}

  /** A non-empty tuple is true in a Python `if`. */
  predicate Truthy(outcome: (bool, string)) { true }

  /** `_convert_single_file`: the converter's `(ok, message)` tuple itself is the
      condition, and a non-empty tuple is true, so every supported file counts as converted. */
  function ConvertSingleFile(extension: string, outcome: (bool, string)): bool {
    if extension in SupportedExtensions then Truthy(outcome) else false
  }

  lemma ConvertSingleFileIgnoresOutcome(extension: string, outcome: (bool, string))
    ensures ConvertSingleFile(extension, outcome) <==> extension in SupportedExtensions
    ensures ConvertSingleFile(".cbz", (false, "Aucune image extraite du CBZ"))
  {
  }

  /** One result handled by `_run_parallel_conversion`: the updated record,
      the increments of the two counters, and whether a callback that raised
      again inside the handler ended the loop. The converter's outcome is
      `outcome(i)`; `callback` tells what the callback raises on a record. */
  datatype Handled = Handled(info: FileInfo, converted: nat, failed: nat, aborted: bool)

  function Handle(info: FileInfo, outcome: (bool, string), callback: Option<FileInfo -> Option<string>>): Handled {
    var success := ConvertSingleFile(info.extension, outcome);
    var first := if success then info.(converted := true, status := Completed) else info.(status := Failed);
    var conv := if success then 1 else 0;
    if callback.None? || callback.value(first).None? then Handled(first, conv, 1 - conv, false)
    else
      var second := first.(status := Failed, error := Some(callback.value(first).value));
      Handled(second, conv, 1 - conv + 1, callback.value(second).Some?)
  }

  datatype RunState = RunState(files: seq<FileInfo>, converted: nat, failed: nat, aborted: bool)

  /** The results handled in completion order `order`, up to the first abort. */
  function Run(files: seq<FileInfo>, order: seq<nat>, outcome: nat -> (bool, string),
               callback: Option<FileInfo -> Option<string>>): (st: RunState)
    requires forall k :: 0 <= k < |order| ==> order[k] < |files|
    ensures |st.files| == |files|
  {
    if order == [] then RunState(files, 0, 0, false)
    else
      var prev := Run(files, order[..|order| - 1], outcome, callback);
      if prev.aborted then prev
      else
        var i := order[|order| - 1];
        var h := Handle(prev.files[i], outcome(i), callback);
        RunState(prev.files[i := h.info], prev.converted + h.converted, prev.failed + h.failed, h.aborted)
  }

  function Converted(info: FileInfo): FileInfo {
    if IsSupported(info) then info.(converted := true, status := Completed)
    else info.(status := Failed)
  }

  predicate IsSupported(info: FileInfo) {
    info.extension in SupportedExtensions
  }

  /** How many of the files at the positions `order` have a supported
      extension. */
  function SupportedCount(files: seq<FileInfo>, order: seq<nat>): nat
    requires forall k :: 0 <= k < |order| ==> order[k] < |files|
  {
    if order == [] then 0
    else SupportedCount(files, order[..|order| - 1]) + if IsSupported(files[order[|order| - 1]]) then 1 else 0
  }

  lemma NoDupInit<T>(s: seq<T>)
    requires s != [] && NoDup(s)
    ensures NoDup(s[..|s| - 1]) && s[|s| - 1] !in s[..|s| - 1]
  {
    var init := s[..|s| - 1];
    forall a | 0 <= a < |init| ensures init[a] != s[|s| - 1] {
      assert init[a] == s[a];
    }
  }

  /** Without a callback, each handled file is counted once, as converted
      exactly when its extension is supported, and its record is updated
      accordingly; records not yet handled are untouched. */
  lemma {:induction false} RunWithoutCallback(files: seq<FileInfo>, order: seq<nat>, outcome: nat -> (bool, string))
    requires NoDup(order) && forall k :: 0 <= k < |order| ==> order[k] < |files|
    ensures var st := Run(files, order, outcome, None);
            !st.aborted && st.converted + st.failed == |order| && st.converted == SupportedCount(files, order)
            && forall i :: 0 <= i < |files| ==> st.files[i] == if i in order then Converted(files[i]) else files[i]
  {
    if order != [] {
      var init := order[..|order| - 1];
      NoDupInit(order);
      RunWithoutCallback(files, init, outcome);
      Snoc(order);
    }
  }

  /** The count does not depend on the order of the positions. */
  lemma {:induction false} SupportedCountSet(files: seq<FileInfo>, order: seq<nat>)
    requires NoDup(order) && forall k :: 0 <= k < |order| ==> order[k] < |files|
    ensures SupportedCount(files, order) == |set i | 0 <= i < |files| && i in order && IsSupported(files[i])|
  {
    if order != [] {
      var init, last := order[..|order| - 1], order[|order| - 1];
      NoDupInit(order);
      SupportedCountSet(files, init);
      Snoc(order);
      var now := set i | 0 <= i < |files| && i in order && IsSupported(files[i]);
      var before := set i | 0 <= i < |files| && i in init && IsSupported(files[i]);
      if IsSupported(files[last]) {
        assert now == before + {last};
      } else {
        assert now == before;
      }
    }
  }

  /** Over a full completion order, the counters add up to the number of
      files, the converted ones are exactly the supported ones and each
      record ends as `Converted` says, whatever the order. */
  lemma RunAllWithoutCallback(files: seq<FileInfo>, order: seq<nat>, outcome: nat -> (bool, string))
    requires IsIndexOrder(order, |files|)
    ensures var st := Run(files, order, outcome, None);
            !st.aborted && st.converted + st.failed == |files|
            && st.converted == |set i | 0 <= i < |files| && IsSupported(files[i])|
            && st.files == seq(|files|, i requires 0 <= i < |files| => Converted(files[i]))
  {
    RunWithoutCallback(files, order, outcome);
    SupportedCountSet(files, order);
    assert (set i | 0 <= i < |files| && i in order && IsSupported(files[i]))
        == (set i | 0 <= i < |files| && IsSupported(files[i]));
  }

  /** A callback that raises after a successful conversion makes the file
      count both as converted and as failed: the counters then exceed the
      number of files. */
  lemma CallbackDoubleCounts(info: FileInfo, outcome: nat -> (bool, string))
    requires info.extension == ".cbz"
    ensures var cb: FileInfo -> Option<string> := (f: FileInfo) => if f.status == Completed then Some("callback") else None;
            var st := Run([info], [0], outcome, Some(cb));
            st.converted == 1 && st.failed == 1 && !st.aborted
  {
    assert [0][..0] == [];
  }

  class FileManager {
    var isConverting: bool
    var maxWorkers: int
    /** The worker count handed to the native converter. */
    var converterWorkers: int
    var fileCache: Cache<string, CacheInfo>
    var maxCacheSize: nat
    var totalFiles: nat
    var convertedFiles: nat
    var failedFiles: nat

    ghost predicate Valid()
      reads this
    {
      FifoCache.Valid(fileCache) && maxCacheSize >= 50
    }

    constructor ()
      ensures Valid() && !isConverting && maxWorkers == 5 && converterWorkers == 5
      ensures fileCache == EmptyCache() && maxCacheSize == 100
      ensures totalFiles == 0 && convertedFiles == 0 && failedFiles == 0
    {
      isConverting := false;
      maxWorkers := 5;
      converterWorkers := 5;
      fileCache := EmptyCache();
      maxCacheSize := 100;
      totalFiles, convertedFiles, failedFiles := 0, 0, 0;
    }

    /** `set_max_workers`: the cache capacity follows the worker count, never
        below 50. */
    method SetMaxWorkers(workers: int)
      requires Valid()
      modifies this
      ensures Valid() && maxWorkers == workers && converterWorkers == workers
      ensures maxCacheSize == if workers * 10 > 50 then workers * 10 else 50
      ensures fileCache == old(fileCache) && isConverting == old(isConverting)
    {
      maxWorkers := workers;
      converterWorkers := workers;
      maxCacheSize := if 50 >= workers * 10 then 50 else workers * 10;
    }

    /** `_add_to_file_cache`: the oldest key goes when the cache is full. */
    method AddToFileCache(filename: string, info: CacheInfo)
      requires Valid()
      modifies this
      ensures Valid() && fileCache == FifoCache.Insert(old(fileCache), maxCacheSize, filename, info)
      ensures Lookup(fileCache, filename) == Some(info)
      ensures FifoCache.Size(old(fileCache)) <= maxCacheSize ==> FifoCache.Size(fileCache) <= maxCacheSize
      ensures maxCacheSize == old(maxCacheSize) && isConverting == old(isConverting)
    {
      InsertStores(fileCache, maxCacheSize, filename, info);
      if FifoCache.Size(fileCache) <= maxCacheSize {
        InsertBounded(fileCache, maxCacheSize, filename, info);
      }
      fileCache := FifoCache.Insert(fileCache, maxCacheSize, filename, info);
    }

    /** `convert_files`: nothing happens while a run is in progress; otherwise
        the counters restart at zero, the results are handled in completion
        order, and the run is over afterwards. A pool of no positive size cannot
        be built: the error is logged, no file is touched and the run is over. */
    method ConvertFiles(files: array<FileInfo>, order: seq<nat>, outcome: nat -> (bool, string),
                        callback: Option<FileInfo -> Option<string>>)
      requires IsIndexOrder(order, files.Length)
      modifies this, files
      ensures old(isConverting) ==>
                files[..] == old(files[..]) && isConverting
                && convertedFiles == old(convertedFiles) && failedFiles == old(failedFiles)
                && totalFiles == old(totalFiles)
      ensures !old(isConverting) && old(maxWorkers) <= 0 ==>
                !isConverting && totalFiles == files.Length && files[..] == old(files[..])
                && convertedFiles == 0 && failedFiles == 0
      ensures !old(isConverting) && old(maxWorkers) > 0 ==>
                var st := Run(old(files[..]), order, outcome, callback);
                !isConverting && totalFiles == files.Length && files[..] == st.files
                && convertedFiles == st.converted && failedFiles == st.failed
      ensures fileCache == old(fileCache) && maxCacheSize == old(maxCacheSize) && maxWorkers == old(maxWorkers)
    {
      if isConverting {
        return;
      }
      isConverting := true;
      totalFiles, convertedFiles, failedFiles := files.Length, 0, 0;
      RunParallelConversion(files, order, outcome, callback);
      isConverting := false;
    }

    /** `stop_conversion`. */
    method StopConversion()
      modifies this`isConverting
      ensures !isConverting
    {
      isConverting := false;
    }

    /** `clear_caches`: the file cache is empty afterwards. */
    method ClearCaches()
      requires Valid()
      modifies this`fileCache
      ensures Valid() && fileCache == EmptyCache() && FifoCache.Size(fileCache) == 0
    {
      fileCache := EmptyCache();
    }

    /** `_run_parallel_conversion`, with the pool's completion order given. A
        worker count that is not positive makes the pool raise before any task is
        submitted; the error is caught and nothing changes. */
    method RunParallelConversion(files: array<FileInfo>, order: seq<nat>, outcome: nat -> (bool, string),
                                 callback: Option<FileInfo -> Option<string>>)
      requires forall k :: 0 <= k < |order| ==> order[k] < files.Length
      modifies this`convertedFiles, this`failedFiles, files
      ensures maxWorkers <= 0 ==>
                files[..] == old(files[..]) && convertedFiles == old(convertedFiles)
                && failedFiles == old(failedFiles)
      ensures maxWorkers > 0 ==>
                var st := Run(old(files[..]), order, outcome, callback);
                files[..] == st.files && convertedFiles == old(convertedFiles) + st.converted
                && failedFiles == old(failedFiles) + st.failed
    {
      if maxWorkers <= 0 {
        return;
      }
      var k := 0;
      while k < |order|
        invariant 0 <= k <= |order|
        invariant var st := Run(old(files[..]), order[..k], outcome, callback);
                  files[..] == st.files && convertedFiles == old(convertedFiles) + st.converted
                  && failedFiles == old(failedFiles) + st.failed && !st.aborted
      {
        assert order[..k + 1][..k] == order[..k];
        var i := order[k];
        var h := Handle(files[i], outcome(i), callback);
        files[i] := h.info;
        convertedFiles := convertedFiles + h.converted;
        failedFiles := failedFiles + h.failed;
        k := k + 1;
        if h.aborted {
          RunStaysAborted(old(files[..]), order, k, outcome, callback);
          return;
        }
      }
      assert order[..k] == order;
    }
  }

  /** What the file cache stores under a key. */
  datatype CacheInfo = SupportedFlag(supported: bool) | PageCount(count: nat) | Info(info: FileInfo)

  /** Once a run has aborted, later results change nothing. */
  lemma {:induction false} RunStaysAborted(files: seq<FileInfo>, order: seq<nat>, k: nat, outcome: nat -> (bool, string),
                                           callback: Option<FileInfo -> Option<string>>)
    requires k <= |order| && forall j :: 0 <= j < |order| ==> order[j] < |files|
    requires Run(files, order[..k], outcome, callback).aborted
    ensures Run(files, order, outcome, callback) == Run(files, order[..k], outcome, callback)
    decreases |order| - k
  {
    if k < |order| {
      assert order[..k + 1][..k] == order[..k];
      RunStaysAborted(files, order, k + 1, outcome, callback);
    } else {
      assert order[..k] == order;
    }
  }
}
