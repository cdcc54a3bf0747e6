/** Filtering, sorting and keyword search over lists of file paths. File
    metadata comes from a `stat` oracle: `None` where `Path.stat()` raises. */
module FileFilters {
  import opened Common
  import opened Sorting
  import opened PyCompare
  import opened BaseConverter

  /** What `Path.stat()` reports and the filters use. */
  datatype Stat = Stat(size: nat, mtime: int)

  /** `size_max`: a number or `float('inf')`. */
  datatype Bound = Finite(n: int) | Infinite

  /** The filter dictionary. An empty string disables the name, series, volume
      and chapter filters, `None` a date bound, an empty list the extension
      filter. Dates are the timestamps `datetime.fromtimestamp` is taken of. */
  datatype Filters = Filters(
    name: string, sizeMin: int, sizeMax: Bound, dateMin: Option<int>, dateMax: Option<int>,
    extension: seq<string>, volume: string, chapter: string, series: string)

  /** The dictionary of `__init__` and `clear_filters`. */
  const InitialFilters := Filters("", 0, Infinite, None, None, [], "", "", "")

  /** One `set_filter(filter_type, value)` call: one constructor per key of
      the dictionary, and `Unknown` for any other key. */
  datatype FilterSetting =
    | SetName(name: string) | SetSizeMin(sizeMin: int) | SetSizeMax(sizeMax: Bound)
    | SetDateMin(dateMin: Option<int>) | SetDateMax(dateMax: Option<int>)
    | SetExtension(extension: seq<string>) | SetVolume(volume: string)
    | SetChapter(chapter: string) | SetSeries(series: string)
    | Unknown(key: string)

  function SetFilter(f: Filters, setting: FilterSetting): Filters {
    match setting
    case SetName(v) => f.(name := v)
    case SetSizeMin(v) => f.(sizeMin := v)
    case SetSizeMax(v) => f.(sizeMax := v)
    case SetDateMin(v) => f.(dateMin := v)
    case SetDateMax(v) => f.(dateMax := v)
    case SetExtension(v) => f.(extension := v)
    case SetVolume(v) => f.(volume := v)
    case SetChapter(v) => f.(chapter := v)
    case SetSeries(v) => f.(series := v)
    case Unknown(_) => f
  }

  /** A key outside the dictionary changes nothing; a known key changes only
      its own entry, and setting it back restores the dictionary. */
  lemma SetFilterSpec(f: Filters, setting: FilterSetting)
    ensures setting.Unknown? ==> SetFilter(f, setting) == f
    ensures setting.SetName? ==> SetFilter(f, setting).name == setting.name
                                 && SetFilter(f, setting).(name := f.name) == f
    ensures setting.SetVolume? ==> SetFilter(f, setting).volume == setting.volume
                                   && SetFilter(f, setting).(volume := f.volume) == f
    ensures SetFilter(SetFilter(f, setting), setting) == SetFilter(f, setting)
  {
  }

  /** `\b` at position `k`: a word character on exactly one side. */
  predicate WordBoundary(s: string, k: nat)
    requires k <= |s|
  {
    (k > 0 && IsWordChar(s[k - 1])) != (k < |s| && IsWordChar(s[k]))
  }

  /** `t` occurs at position `i` of `s` and ends on a word boundary. */
  predicate TaggedAt(s: string, t: string, i: nat) {
    i + |t| <= |s| && s[i..i + |t|] == t && WordBoundary(s, i + |t|)
  }

  /** `re.search(tag + value + r'\b', s)`, the value taken literally. */
  predicate HasTagged(s: string, tag: string, value: string) {
    exists i: nat :: i <= |s| && TaggedAt(s, tag + value, i)
  }

  /** `_matches_manga_filters` on the lowered file name. */
  predicate MatchesMangaFilters(f: Filters, filename: string) {
    var lower := Lower(filename);
    (f.series == "" || Contains(lower, Lower(f.series)))
    && (f.volume == "" || HasTagged(lower, "vol.", f.volume))
    && (f.chapter == "" || HasTagged(lower, "ch.", f.chapter))
  }

  function LowerAll(names: seq<string>): (r: seq<string>)
    ensures |r| == |names| && forall i :: 0 <= i < |names| ==> r[i] == Lower(names[i])
  {
    if names == [] then [] else [Lower(names[0])] + LowerAll(names[1..])
  }

  /** `_matches_filters`: every enabled filter holds; a path whose `stat`
      fails is rejected. */
  predicate MatchesFilters(f: Filters, stat: Path -> Option<Stat>, p: Path) {
    var name := Name(p);
    (f.name == "" || Contains(Lower(name), Lower(f.name)))
    && stat(p).Some?
    && !(stat(p).value.size < f.sizeMin || (f.sizeMax.Finite? && stat(p).value.size > f.sizeMax.n))
    && (f.dateMin.None? || !(stat(p).value.mtime < f.dateMin.value))
    && (f.dateMax.None? || !(stat(p).value.mtime > f.dateMax.value))
    && (f.extension == [] || Lower(Suffix(name)) in LowerAll(f.extension))
    && (!(f.volume != "" || f.chapter != "" || f.series != "") || MatchesMangaFilters(f, name))
  }

  /** The cleared filters keep every file that can be stat'ed. */
  lemma InitialFiltersKeepAll(stat: Path -> Option<Stat>, p: Path)
    ensures MatchesFilters(InitialFilters, stat, p) <==> stat(p).Some?
  {
  }

  /** A volume filter asks for the whole number: "vol.1" is not found in
      "vol.12", but is in "vol.1.cbz" and "vol.1 end". */
  lemma VolumeFilterWholeNumber()
    ensures !HasTagged("x vol.12", "vol.", "1")
    ensures HasTagged("x vol.1.cbz", "vol.", "1")
    ensures HasTagged("vol.1", "vol.", "1")
  {
    var t := "vol." + "1";
    assert t == "vol.1";
    var s := "x vol.1.cbz";
    assert s[2..7] == t by {
      forall k | 0 <= k < 5 ensures s[2..7][k] == t[k] { }
    }
    assert TaggedAt(s, t, 2);
    var one := "vol.1";
    assert one[0..5] == t;
    assert TaggedAt(one, t, 0);
    var twelve := "x vol.12";
    forall i: nat | i <= |twelve| ensures !TaggedAt(twelve, t, i) {
      if i + |t| <= |twelve| && twelve[i..i + |t|] == t {
        assert twelve[i..i + |t|][0] == twelve[i] == 'v';
        assert i == 2;
      }
    }
  }

  /** `apply_filters`: the files that pass, in their order. */
  function Filtered(f: Filters, stat: Path -> Option<Stat>, files: seq<Path>): seq<Path> {
    if files == [] then []
    else Filtered(f, stat, files[..|files| - 1])
         + (if MatchesFilters(f, stat, files[|files| - 1]) then [files[|files| - 1]] else [])
  }

  /** Filtering a concatenation filters each part; with the single-file case
      this fixes the result as the order-preserving sublist of passing files. */
  lemma {:induction false} FilteredAppend(f: Filters, stat: Path -> Option<Stat>, a: seq<Path>, b: seq<Path>)
    ensures Filtered(f, stat, a + b) == Filtered(f, stat, a) + Filtered(f, stat, b)
    decreases |b|
  {
    if b == [] {
      assert a + b == a;
    } else {
      var init := b[..|b| - 1];
      assert (a + b)[..|a + b| - 1] == a + init;
      FilteredAppend(f, stat, a, init);
    }
  }

  lemma FilteredSingle(f: Filters, stat: Path -> Option<Stat>, p: Path)
    ensures Filtered(f, stat, [p]) == if MatchesFilters(f, stat, p) then [p] else []
  {
    assert [p][..0] == [];
  }

  /** The kept files are exactly the listed files that pass, and each keeps
      its number of occurrences. */
  lemma {:induction false} FilteredMembers(f: Filters, stat: Path -> Option<Stat>, files: seq<Path>, x: Path)
    ensures x in Filtered(f, stat, files) <==> x in files && MatchesFilters(f, stat, x)
    ensures Count(Filtered(f, stat, files), x) == if MatchesFilters(f, stat, x) then Count(files, x) else 0
  {
    if files != [] {
      var init, last := files[..|files| - 1], files[|files| - 1];
      FilteredMembers(f, stat, init, x);
      Snoc(files);
      var r := Filtered(f, stat, files);
      var rest := if MatchesFilters(f, stat, last) then [last] else [];
      assert r == Filtered(f, stat, init) + rest;
      if rest == [] {
        assert r == Filtered(f, stat, init);
      } else {
        assert r[..|r| - 1] == Filtered(f, stat, init);
        Snoc(r);
      }
    }
  }

  class FileFilter {
    var filters: Filters

    constructor ()
      ensures filters == InitialFilters
    {
      filters := InitialFilters;
    }

    method SetFilterValue(setting: FilterSetting)
      modifies this
      ensures filters == SetFilter(old(filters), setting)
    {
      filters := SetFilter(filters, setting);
    }

    method ClearFilters()
      modifies this
      ensures filters == InitialFilters
    {
      filters := InitialFilters;
    }

    method ApplyFilters(files: seq<Path>, stat: Path -> Option<Stat>) returns (filtered: seq<Path>)
      ensures filtered == Filtered(filters, stat, files)
    {
      filtered := [];
      for i := 0 to |files|
        invariant filtered == Filtered(filters, stat, files[..i])
      {
        assert files[..i + 1][..i] == files[..i];
        if MatchesFilters(filters, stat, files[i]) {
          filtered := filtered + [files[i]];
        }
      }
      assert files[..|files|] == files;
    }
  }

  /** The number after the first `tag` followed by a digit (`re.search(tag +
      r'(\d+)')`), 0 when there is none. */
  function TagNumber(s: string, tag: string): nat
    decreases |s|
  {
    if IsPrefix(tag, s) && |tag| < |s| && IsAsciiDigit(s[|tag|]) then
      var digits := s[|tag|..][..DigitRun(s[|tag|..])];
      DigitsValue(digits)
    else if s == [] then 0
    else TagNumber(s[1..], tag)
  }

  /** A name that opens with the tag reads the whole digit run after it. */
  lemma TagNumberLeading(tag: string, digits: string, tail: string)
    requires AllDigits(digits) && digits != []
    requires tail == [] || !IsAsciiDigit(tail[0])
    ensures TagNumber(tag + digits + tail, tag) == DigitsValue(digits)
  {
    var s := tag + digits + tail;
    assert s[..|tag|] == tag;
    assert s[|tag|..] == digits + tail;
    DigitRunPrefix(digits, tail);
    assert (digits + tail)[..|digits|] == digits;
  }

  lemma TagNumberExamples()
    ensures TagNumber("vol.12 ch.3", "vol.") == 12
    ensures TagNumber("vol.x", "vol.") == 0
  {
    TagNumberLeading("vol.", "12", " ch.3");
    assert "vol." + "12" + " ch.3" == "vol.12 ch.3";
    assert "12"[..1] == "1";
    assert DigitsValue("12") == 12;
    var s := "vol.x";
    assert !IsAsciiDigit(s[4]);
    assert s[1..] == "ol.x" && !IsPrefix("vol.", "ol.x");
    assert "ol.x"[1..] == "l.x" && !IsPrefix("vol.", "l.x");
    assert "l.x"[1..] == ".x" && !IsPrefix("vol.", ".x");
    assert ".x"[1..] == "x" && !IsPrefix("vol.", "x");
    assert "x"[1..] == "" && !IsPrefix("vol.", "");
  }

  /** The sort keys of `FileSorter.sort_files`. */
  datatype SortKey = ByName | BySize | ByDate | ByVolume | ByChapter | Other(key: string)

  function NameKeyOf(p: Path): string { Lower(Name(p)) }

  function NumberKey(key: SortKey, stat: Path -> Option<Stat>): Path -> int {
    (p: Path) =>
      match key
      case BySize => if stat(p).Some? then stat(p).value.size else 0
      case ByDate => if stat(p).Some? then stat(p).value.mtime else 0
      case ByVolume => TagNumber(Lower(Name(p)), "vol.")
      case _ => TagNumber(Lower(Name(p)), "ch.")
  }

  /** The "not greater than" relation `sorted(key=..., reverse=...)` sorts by. */
  function SortRelation(key: SortKey, reverse: bool, stat: Path -> Option<Stat>): (Path, Path) -> bool {
    var le := if key == ByName then ByKey(NameKeyOf, StrLt) else ByKey(NumberKey(key, stat), IntLt);
    if reverse then Flip(le) else le
  }

  predicate AllStat(files: seq<Path>, stat: Path -> Option<Stat>) {
    forall i :: 0 <= i < |files| ==> stat(files[i]).Some?
  }

  /** `sort_files`; `None` where computing a size or date key raises. */
  function SortFiles(files: seq<Path>, key: SortKey, reverse: bool, stat: Path -> Option<Stat>): Option<seq<Path>> {
    if key.Other? then Some(files)
    else if (key == BySize || key == ByDate) && !AllStat(files, stat) then None
    else Some(SortBy(files, SortRelation(key, reverse, stat)))
  }

  lemma SortRelationTotal(key: SortKey, reverse: bool, stat: Path -> Option<Stat>)
    ensures TotalPreorder(SortRelation(key, reverse, stat))
  {
    StrLtStrictTotalOrder();
    ByKeyTotalPreorder(NameKeyOf, StrLt);
    ByKeyTotalPreorder(NumberKey(key, stat), IntLt);
    FlipTotalPreorder(ByKey(NameKeyOf, StrLt));
    FlipTotalPreorder(ByKey(NumberKey(key, stat), IntLt));
  }

  /** An unknown key returns the list as given; a known key returns a
      permutation ordered by the key (descending when `reverse`), files with
      equal keys keeping their order; only a failing `stat` under the size or
      date key gives no result. */
  lemma SortFilesSpec(files: seq<Path>, key: SortKey, reverse: bool, stat: Path -> Option<Stat>, y: Path)
    ensures key.Other? ==> SortFiles(files, key, reverse, stat) == Some(files)
    ensures SortFiles(files, key, reverse, stat).None? <==> (key == BySize || key == ByDate) && !AllStat(files, stat)
    ensures SortFiles(files, key, reverse, stat).Some? && !key.Other? ==>
              var r := SortFiles(files, key, reverse, stat).value;
              multiset(r) == multiset(files) && SortedBy(r, SortRelation(key, reverse, stat))
              && ClassOf(r, y, SortRelation(key, reverse, stat)) == ClassOf(files, y, SortRelation(key, reverse, stat))
  {
    SortRelationTotal(key, reverse, stat);
    SortBySortedPerm(files, SortRelation(key, reverse, stat));
    SortByStable(files, y, SortRelation(key, reverse, stat));
  }

  /** Length of the leading run of word characters. */
  function WordRun(s: string): (n: nat)
    ensures n <= |s|
    ensures forall i :: 0 <= i < n ==> IsWordChar(s[i])
    ensures n < |s| ==> !IsWordChar(s[n])
  {
    if s == [] || !IsWordChar(s[0]) then 0 else 1 + WordRun(s[1..])
  }

  /** `re.findall(r'\w+', s)`: the maximal runs of word characters, left to
      right. */
  function Words(s: string): (r: seq<string>)
    ensures forall k :: 0 <= k < |r| ==> r[k] != [] && forall i :: 0 <= i < |r[k]| ==> IsWordChar(r[k][i])
    decreases |s|
  {
    if s == [] then []
    else if !IsWordChar(s[0]) then Words(s[1..])
    else
      var n := WordRun(s);
      [s[..n]] + Words(s[n..])
  }

  predicate IsWord(w: string) {
    w != [] && forall i :: 0 <= i < |w| ==> IsWordChar(w[i])
  }

  lemma {:induction false} WordRunPrefix(w: string, tail: string)
    requires forall i :: 0 <= i < |w| ==> IsWordChar(w[i])
    requires tail == [] || !IsWordChar(tail[0])
    ensures WordRun(w + tail) == |w|
    decreases |w|
  {
    if w != [] {
      assert (w + tail)[1..] == w[1..] + tail;
      WordRunPrefix(w[1..], tail);
    } else {
      assert w + tail == tail;
    }
  }

  /** A word followed by a separator is found whole, and the search goes on
      after the separator. */
  lemma WordsSplit(w: string, c: char, rest: string)
    requires IsWord(w) && !IsWordChar(c)
    ensures Words(w + [c] + rest) == [w] + Words(rest)
  {
    var s := w + [c] + rest;
    assert s == w + ([c] + rest);
    WordRunPrefix(w, [c] + rest);
    assert s[..|w|] == w && s[|w|..] == [c] + rest;
    assert ([c] + rest)[1..] == rest;
  }

  /** A string of word characters is one word. */
  lemma WordsWhole(w: string)
    requires IsWord(w)
    ensures Words(w) == [w]
  {
    WordRunPrefix(w, []);
    assert w + [] == w;
    assert w[..|w|] == w && w[|w|..] == [];
  }

  /** One word of a file's name recorded: the path appended to its entry. */
  function AddWord(index: map<string, seq<Path>>, w: string, p: Path): map<string, seq<Path>> {
    index[w := (if w in index then index[w] else []) + [p]]
  }

  function AddWords(index: map<string, seq<Path>>, words: seq<string>, p: Path): map<string, seq<Path>> {
    if words == [] then index else AddWord(AddWords(index, words[..|words| - 1], p), words[|words| - 1], p)
  }

  function FileWords(p: Path): seq<string> { Words(Lower(Name(p))) }

  /** The index `build_index(files)` leaves. */
  function Indexed(files: seq<Path>): map<string, seq<Path>> {
    if files == [] then map[] else AddWords(Indexed(files[..|files| - 1]), FileWords(files[|files| - 1]), files[|files| - 1])
  }

  lemma {:induction false} AddWordsMembers(index: map<string, seq<Path>>, words: seq<string>, p: Path, w: string, q: Path)
    ensures w in AddWords(index, words, p) <==> w in index || w in words
    ensures w in AddWords(index, words, p) ==>
              (q in AddWords(index, words, p)[w] <==> (w in index && q in index[w]) || (q == p && w in words))
  {
    if words != [] {
      AddWordsMembers(index, words[..|words| - 1], p, w, q);
      Snoc(words);
    }
  }

  /** The index maps each word to the files whose lowered name holds it, and
      holds no other word. */
  lemma {:induction false} IndexedMembers(files: seq<Path>, w: string, q: Path)
    ensures w in Indexed(files) <==> exists p :: p in files && w in FileWords(p)
    ensures w in Indexed(files) ==> (q in Indexed(files)[w] <==> q in files && w in FileWords(q))
  {
    if files != [] {
      var init, last := files[..|files| - 1], files[|files| - 1];
      IndexedMembers(init, w, q);
      AddWordsMembers(Indexed(init), FileWords(last), last, w, q);
      Snoc(files);
      if w in Indexed(init) {
        var p :| p in init && w in FileWords(p);
        assert p in files;
      }
      if w in Indexed(files) && w !in FileWords(last) {
        var p :| p in files && w in FileWords(p);
        assert p in init;
      }
    }
  }

  lemma IndexedSnoc(files: seq<Path>, i: nat)
    requires i < |files|
    ensures Indexed(files[..i + 1]) == AddWords(Indexed(files[..i]), FileWords(files[i]), files[i])
  {
    assert files[..i + 1][..i] == files[..i];
  }

  lemma AddWordsSnoc(index: map<string, seq<Path>>, words: seq<string>, p: Path, j: nat)
    requires j < |words|
    ensures AddWords(index, words[..j + 1], p) == AddWord(AddWords(index, words[..j], p), words[j], p)
  {
    assert words[..j + 1][..j] == words[..j];
  }

  /** The paths a non-empty index gives for a query's words. */
  function IndexHits(index: map<string, seq<Path>>, words: seq<string>): set<Path> {
    if words == [] then {}
    else IndexHits(index, words[..|words| - 1])
         + (if words[|words| - 1] in index then Elems(index[words[|words| - 1]]) else {})
  }

  lemma {:induction false} IndexHitsMembers(index: map<string, seq<Path>>, words: seq<string>, q: Path)
    ensures q in IndexHits(index, words) <==> exists w :: w in words && w in index && q in index[w]
  {
    if words != [] {
      IndexHitsMembers(index, words[..|words| - 1], q);
      Snoc(words);
    }
  }

  lemma IndexHitsSnoc(index: map<string, seq<Path>>, words: seq<string>, j: nat)
    requires j < |words|
    ensures IndexHits(index, words[..j + 1])
         == IndexHits(index, words[..j]) + (if words[j] in index then Elems(index[words[j]]) else {})
  {
    assert words[..j + 1][..j] == words[..j];
  }

  /** The files whose lowered name contains the lowered query. */
  function DirectHits(files: seq<Path>, query: string): set<Path> {
    if files == [] then {}
    else DirectHits(files[..|files| - 1], query)
         + (if Contains(Lower(Name(files[|files| - 1])), Lower(query)) then {files[|files| - 1]} else {})
  }

  lemma {:induction false} DirectHitsMembers(files: seq<Path>, query: string, q: Path)
    ensures q in DirectHits(files, query) <==> q in files && Contains(Lower(Name(q)), Lower(query))
  {
    if files != [] {
      DirectHitsMembers(files[..|files| - 1], query, q);
      Snoc(files);
    }
  }

  lemma DirectHitsSnoc(files: seq<Path>, query: string, i: nat)
    requires i < |files|
    ensures DirectHits(files[..i + 1], query)
         == DirectHits(files[..i], query) + (if Contains(Lower(Name(files[i])), Lower(query)) then {files[i]} else {})
  {
    assert files[..i + 1][..i] == files[..i];
  }

  /** `files or []`. */
  function OrEmpty(files: Option<seq<Path>>): seq<Path> {
    if files.Some? then files.value else []
  }

  /** The paths `search` returns for a non-empty query. */
  function SearchHits(index: map<string, seq<Path>>, query: string, files: Option<seq<Path>>): set<Path> {
    if |index| > 0 then IndexHits(index, Words(Lower(query))) else DirectHits(OrEmpty(files), query)
  }

  class SearchEngine {
    var searchIndex: map<string, seq<Path>>

    constructor ()
      ensures searchIndex == map[]
    {
      searchIndex := map[];
    }

    /** `build_index`: the index is rebuilt from nothing. */
    method BuildIndex(files: seq<Path>)
      modifies this
      ensures searchIndex == Indexed(files)
    {
      searchIndex := map[];
      for i := 0 to |files|
        invariant searchIndex == Indexed(files[..i])
      {
        IndexedSnoc(files, i);
        IndexFile(files[i]);
      }
      assert files[..|files|] == files;
    }

    /** The inner loop of `build_index`: each word of one file's lowered name
        gets the file appended to its entry. */
    method IndexFile(p: Path)
      modifies this
      ensures searchIndex == AddWords(old(searchIndex), FileWords(p), p)
    {
      var words := FileWords(p);
      for j := 0 to |words|
        invariant searchIndex == AddWords(old(searchIndex), words[..j], p)
      {
        AddWordsSnoc(old(searchIndex), words, p, j);
        var w := words[j];
        if w !in searchIndex {
          searchIndex := searchIndex[w := []];
        }
        searchIndex := searchIndex[w := searchIndex[w] + [p]];
      }
      assert words[..|words|] == words;
    }

    /** `search`: an empty query gives back `files or []`; otherwise the hits,
        each once, in the order of `list(set)`. */
    method Search(query: string, files: Option<seq<Path>>, setOrder: seq<Path> -> seq<Path>)
      returns (r: seq<Path>)
      requires IsSetOrder(setOrder)
      ensures query == "" ==> r == OrEmpty(files)
      ensures query != "" ==> NoDup(r) && Elems(r) == SearchHits(searchIndex, query, files)
    {
      if query == "" {
        return OrEmpty(files);
      }
      var queryLower := Lower(query);
      var results: set<Path> := {};
      if |searchIndex| > 0 {
        var queryWords := Words(queryLower);
        for j := 0 to |queryWords|
          invariant results == IndexHits(searchIndex, queryWords[..j])
        {
          IndexHitsSnoc(searchIndex, queryWords, j);
          var w := queryWords[j];
          if w in searchIndex {
            results := results + Elems(searchIndex[w]);
          }
        }
        assert queryWords[..|queryWords|] == queryWords;
      } else {
        var searchFiles := OrEmpty(files);
        for i := 0 to |searchFiles|
          invariant results == DirectHits(searchFiles[..i], query)
        {
          DirectHitsSnoc(searchFiles, query, i);
          if Contains(Lower(Name(searchFiles[i])), queryLower) {
            results := results + {searchFiles[i]};
          }
        }
        assert searchFiles[..|searchFiles|] == searchFiles;
      }
      var listed := SetToSeq(results);
      r := setOrder(listed);
    }
  }

  /** Searching an index built from `files` finds exactly the files whose
      lowered name shares a word with the lowered query. */
  lemma SearchIndexed(files: seq<Path>, query: string, q: Path, other: Option<seq<Path>>)
    requires |Indexed(files)| > 0
    ensures q in SearchHits(Indexed(files), query, other) <==>
              q in files && exists w :: w in Words(Lower(query)) && w in FileWords(q)
  {
    IndexHitsMembers(Indexed(files), Words(Lower(query)), q);
    forall w ensures w in Indexed(files) && q in Indexed(files)[w] <==> q in files && w in FileWords(q) {
      IndexedMembers(files, w, q);
    }
  }

  /** Without an index, the search is a substring match on the names of the
      given files. */
  lemma SearchDirect(files: Option<seq<Path>>, query: string, q: Path)
    ensures q in SearchHits(map[], query, files) <==> q in OrEmpty(files) && Contains(Lower(Name(q)), Lower(query))
  {
    DirectHitsMembers(OrEmpty(files), query, q);
  }
}
