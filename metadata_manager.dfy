/** Manga information from a file name, the merge of the MyAnimeList and
    MangaDex records, and the PDF metadata assembled from them. The HTTP
    lookups and the exiftool run are not modelled: their results are the
    inputs here. */
module MetadataManager {
  import opened Common
  import opened BaseConverter
  import opened Patterns

  // ------------------------------------------------------------ file names

  /** What `extract_manga_info_from_filename` returns. The fallback dict holds
      only the title, so every other field is None there; a matched pattern
      sets `volume` and sets the others to a value or None by group count. */
  datatype MangaInfo = MangaInfo(
    title: string, volume: Option<string>, chapters: Option<string>,
    pages: Option<string>, author: Option<string>, scanGroup: Option<string>)

  /** `Kingdom T01 - C001 à 008 [216p] (Yasuhisa HARA) [Scantrads]` after the
      lazy title group. */
  const FullTail: seq<Token> :=
    [Spaces1, Lit('T')] + [Digits] + [Spaces, Lit('-'), Spaces, Lit('C')] + [Digits]
    + [Spaces, Lit('à'), Spaces] + [Digits] + [Spaces, Lit('[')] + [Digits]
    + [Lit('p'), Lit(']'), Spaces, Lit('(')] + [Until(')')] + [Lit(')'), Spaces, Lit('[')] + [Until(']')]
    + [Lit(']')]

  /** `One Piece T01 Ch001-010`. */
  const TomeChaptersTail: seq<Token> :=
    [Spaces1, Lit('T')] + [Digits] + [Spaces, Lit('C'), Lit('h')] + [Digits] + [Lit('-')] + [Digits]

  /** `Naruto Vol.01 Ch.001-010`. */
  const VolChaptersTail: seq<Token> :=
    [Spaces1] + Lits("Vol.") + [Digits] + [Spaces] + Lits("Ch.") + [Digits] + [Lit('-')] + [Digits]

  /** `Kingdom T01`. */
  const TomeTail: seq<Token> := [Spaces1, Lit('T')] + [Digits]

  /** `Kingdom Vol.01`. */
  const VolTail: seq<Token> := [Spaces1] + Lits("Vol.") + [Digits]

  /** The five patterns, tried in this order. */
  const MangaTails: seq<seq<Token>> := [FullTail, TomeChaptersTail, VolChaptersTail, TomeTail, VolTail]

  const D: Token := Digits

  lemma FullTailShape()
    ensures CaptureKinds(FullTail) == [D, D, D, D, Until(')'), Until(']')]
  {
    var t: seq<Token> := [Spaces1, Lit('T')];
    PlainCapturesNothing(t);
    AppendCapture(t, Digits);
    t := t + [Digits];
    AppendPlain(t, [Spaces, Lit('-'), Spaces, Lit('C')]);
    t := t + [Spaces, Lit('-'), Spaces, Lit('C')];
    AppendCapture(t, Digits);
    t := t + [Digits];
    AppendPlain(t, [Spaces, Lit('à'), Spaces]);
    t := t + [Spaces, Lit('à'), Spaces];
    AppendCapture(t, Digits);
    t := t + [Digits];
    AppendPlain(t, [Spaces, Lit('[')]);
    t := t + [Spaces, Lit('[')];
    AppendCapture(t, Digits);
    t := t + [Digits];
    AppendPlain(t, [Lit('p'), Lit(']'), Spaces, Lit('(')]);
    t := t + [Lit('p'), Lit(']'), Spaces, Lit('(')];
    AppendCapture(t, Until(')'));
    t := t + [Until(')')];
    AppendPlain(t, [Lit(')'), Spaces, Lit('[')]);
    t := t + [Lit(')'), Spaces, Lit('[')];
    AppendCapture(t, Until(']'));
    t := t + [Until(']')];
    AppendPlain(t, [Lit(']')]);
    t := t + [Lit(']')];
    assert t == FullTail;
  }

  lemma TomeChaptersShape()
    ensures CaptureKinds(TomeChaptersTail) == [D, D, D]
  {
    var t: seq<Token> := [Spaces1, Lit('T')];
    PlainCapturesNothing(t);
    AppendCapture(t, Digits);
    t := t + [Digits];
    AppendPlain(t, [Spaces, Lit('C'), Lit('h')]);
    t := t + [Spaces, Lit('C'), Lit('h')];
    AppendCapture(t, Digits);
    t := t + [Digits];
    AppendPlain(t, [Lit('-')]);
    t := t + [Lit('-')];
    AppendCapture(t, Digits);
    t := t + [Digits];
    assert t == TomeChaptersTail;
  }

  lemma VolChaptersShape()
    ensures CaptureKinds(VolChaptersTail) == [D, D, D]
  {
    var t: seq<Token> := [Spaces1];
    PlainCapturesNothing(t);
    LitsArePlain("Vol.");
    LitsArePlain("Ch.");
    AppendPlain(t, Lits("Vol."));
    t := t + Lits("Vol.");
    AppendCapture(t, Digits);
    t := t + [Digits];
    AppendPlain(t, [Spaces]);
    t := t + [Spaces];
    AppendPlain(t, Lits("Ch."));
    t := t + Lits("Ch.");
    AppendCapture(t, Digits);
    t := t + [Digits];
    AppendPlain(t, [Lit('-')]);
    t := t + [Lit('-')];
    AppendCapture(t, Digits);
    t := t + [Digits];
    assert t == VolChaptersTail;
  }

  lemma ShortTailsShape()
    ensures CaptureKinds(TomeTail) == [D] && CaptureKinds(VolTail) == [D]
  {
    PlainCapturesNothing([Spaces1, Lit('T')]);
    AppendCapture([Spaces1, Lit('T')], Digits);
    LitsArePlain("Vol.");
    PlainCapturesNothing([Spaces1]);
    AppendPlain([Spaces1], Lits("Vol."));
    AppendCapture([Spaces1] + Lits("Vol."), Digits);
  }

  /** The groups each pattern captures after the title: four numbers and two
      bracketed names for the first, three numbers for the next two, one
      number for the last two. */
  function TailKinds(k: nat): seq<Token> {
    if k == 0 then [D, D, D, D, Until(')'), Until(']')]
    else if k <= 2 then [D, D, D]
    else [D]
  }

  lemma MangaTailsShape()
    ensures |MangaTails| == 5
    ensures forall k :: 0 <= k < 5 ==> CaptureKinds(MangaTails[k]) == TailKinds(k)
  {
    forall k | 0 <= k < 5 ensures CaptureKinds(MangaTails[k]) == TailKinds(k) {
      if k == 0 {
        FullTailShape();
      } else if k == 1 {
        TomeChaptersShape();
      } else if k == 2 {
        VolChaptersShape();
      } else {
        ShortTailsShape();
      }
    }
  }

  /** The first pattern of `tails`, from `k` on, that matches and has at
      least two groups, with its groups. */
  function FirstMatch(stem: string, tails: seq<seq<Token>>, k: nat): (r: Option<(nat, seq<string>)>)
    ensures r.Some? ==> |r.value.1| >= 2
    decreases |tails| - k
  {
    if k >= |tails| then None
    else
      var m := MatchLazy(stem, tails[k]);
      if m.Some? && |m.value| >= 2 then Some((k, m.value)) else FirstMatch(stem, tails, k + 1)
  }

  /** The dict built from the groups of a match. */
  function InfoOf(g: seq<string>): MangaInfo
    requires |g| >= 2
  {
    MangaInfo(
      Strip(g[0]), Some(g[1]),
      if |g| > 3 then Some(g[2] + "-" + g[3]) else None,
      if |g| > 4 then Some(g[4]) else None,
      if |g| > 5 then Some(g[5]) else None,
      if |g| > 6 then Some(g[6]) else None)
  }

  /** `extract_manga_info_from_filename`. */
  function ExtractMangaInfo(filename: string): MangaInfo {
    var stem := Stem(filename);
    match FirstMatch(stem, MangaTails, 0)
    case None => MangaInfo(stem, None, None, None, None, None)
    case Some((_, g)) => InfoOf(g)
  }

  /** The pattern that decides the result: when every pattern captures a
      group after the title, the first that matches. */
  lemma {:induction false} FirstMatchSpec(stem: string, tails: seq<seq<Token>>, k: nat)
    requires k <= |tails| && forall j :: 0 <= j < |tails| ==> Captures(tails[j]) >= 1
    ensures var r := FirstMatch(stem, tails, k);
            (r.None? <==> forall j :: k <= j < |tails| ==> MatchLazy(stem, tails[j]).None?)
            && (r.Some? ==> k <= r.value.0 < |tails| && MatchLazy(stem, tails[r.value.0]) == Some(r.value.1)
                            && forall j :: k <= j < r.value.0 ==> MatchLazy(stem, tails[j]).None?)
    decreases |tails| - k
  {
    if k < |tails| {
      FirstMatchSpec(stem, tails, k + 1);
    }
  }

  /** Every pattern captures at least one number after the title. */
  lemma MangaTailsCapture()
    ensures forall j :: 0 <= j < |MangaTails| ==> Captures(MangaTails[j]) >= 1
  {
    MangaTailsShape();
  }

  /** `a-b` with two non-empty digit runs. */
  predicate ChapterRange(c: string) {
    exists i :: 0 < i < |c| - 1 && c[i] == '-' && Fits(c[..i], Digits) && Fits(c[i + 1..], Digits)
  }

  lemma ChapterRangeOf(a: string, b: string)
    requires Fits(a, Digits) && Fits(b, Digits)
    ensures ChapterRange(a + "-" + b)
  {
    var c := a + "-" + b;
    assert c[..|a|] == a && c[|a| + 1..] == b && c[|a|] == '-';
  }

  /** The fields of a match, by pattern: the title is the stripped lazy
      prefix and the volume a digit run; the chapter range comes from the
      first three patterns only; pages, author and scan group from the first
      only, the author free of ')' and the scan group free of ']'. */
  lemma InfoOfMatch(stem: string, k: nat, g: seq<string>)
    requires k < 5 && MatchLazy(stem, MangaTails[k]) == Some(g)
    ensures |g| >= 2
    ensures var r := InfoOf(g);
            StrippedPrefix(r.title, stem) && r.volume.Some? && Fits(r.volume.value, Digits)
            && (r.chapters.Some? <==> k <= 2) && (r.chapters.Some? ==> ChapterRange(r.chapters.value))
            && (r.pages.Some? <==> k == 0) && (r.author.Some? <==> k == 0) && (r.scanGroup.Some? <==> k == 0)
            && (k == 0 ==> Fits(r.pages.value, Digits) && Fits(r.author.value, Until(')'))
                           && Fits(r.scanGroup.value, Until(']')))
  {
    MangaTailsShape();
    MatchLazyGroups(stem, MangaTails[k]);
    var kinds := TailKinds(k);
    assert GroupsFit(g[1..], kinds);
    assert Strip(g[0]) == Strip(stem[..|g[0]|]);
    assert g[1] == g[1..][0] && Fits(g[1..][0], kinds[0]);
    if k <= 2 {
      assert g[2] == g[1..][1] && Fits(g[1..][1], kinds[1]);
      assert g[3] == g[1..][2] && Fits(g[1..][2], kinds[2]);
      ChapterRangeOf(g[2], g[3]);
    }
    if k == 0 {
      assert g[4] == g[1..][3] && Fits(g[1..][3], kinds[3]);
      assert g[5] == g[1..][4] && Fits(g[1..][4], kinds[4]);
      assert g[6] == g[1..][5] && Fits(g[1..][5], kinds[5]);
    }
  }

  /** No pattern matching gives the title-only dict of the whole stem;
      otherwise the first matching pattern fills the fields as `InfoOfMatch`
      says. */
  lemma ExtractMangaInfoSpec(filename: string)
    ensures var r := ExtractMangaInfo(filename);
            var stem := Stem(filename);
            (r.volume.None? <==> forall j :: 0 <= j < 5 ==> MatchLazy(stem, MangaTails[j]).None?)
            && (r.volume.None? ==> r == MangaInfo(stem, None, None, None, None, None))
            && (r.volume.Some? ==>
                  StrippedPrefix(r.title, stem) && Fits(r.volume.value, Digits)
                  && (r.chapters.Some? <==> exists j :: 0 <= j < 3 && MatchLazy(stem, MangaTails[j]).Some?)
                  && (r.chapters.Some? ==> ChapterRange(r.chapters.value))
                  && (r.pages.Some? <==> MatchLazy(stem, FullTail).Some?)
                  && (r.pages.Some? ==>
                        (Fits(r.pages.value, Digits) && r.author.Some? && r.scanGroup.Some?
                         && Fits(r.author.value, Until(')')) && Fits(r.scanGroup.value, Until(']')))))
  {
    var stem := Stem(filename);
    MangaTailsCapture();
    FirstMatchSpec(stem, MangaTails, 0);
    var m := FirstMatch(stem, MangaTails, 0);
    if m.Some? {
      var k := m.value.0;
      InfoOfMatch(stem, k, m.value.1);
      assert MangaTails[0] == FullTail;
      if k <= 2 {
        assert MatchLazy(stem, MangaTails[k]).Some?;
      }
    }
  }

  // ------------------------------------------------------------ merge

  datatype Author = AuthorDict(firstName: string, lastName: string) | AuthorText(text: string)
  datatype Genre = GenreDict(name: string) | GenreText(text: string)

  /** A MyAnimeList record; a missing key reads as the `.get` default. */
  datatype MalInfo = MalInfo(title: string, synopsis: string, genres: seq<Genre>, authors: seq<Author>)

  datatype Relationship = Relationship(kind: string, name: string)

  /** A MangaDex record: the English title and description (empty when
      missing), the attributes copied as they are, and the relationships. */
  datatype DexInfo = DexInfo(
    titleEn: string, descriptionEn: string, status: Option<string>, year: Option<int>,
    contentRating: Option<string>, relationships: seq<Relationship>)

  /** The merged dict; None stands for a missing key. */
  datatype MergedInfo = MergedInfo(
    title: Option<string>, synopsis: Option<string>, genres: Option<seq<Genre>>,
    authors: Option<seq<Author>>, source: Option<string>, status: Option<string>,
    year: Option<int>, contentRating: Option<string>)

  const EmptyInfo: MergedInfo := MergedInfo(None, None, None, None, None, None, None, None)

  /** The MangaDex value replaces the current one only when the current one
      is missing or empty and the MangaDex one is not empty. */
  function Fallback(current: Option<string>, dex: string): (r: Option<string>)
    ensures current.Some? && current.value != "" ==> r == current
    ensures dex == "" ==> r == current
    ensures (current.None? || current.value == "") && dex != "" ==> r == Some(dex)
  {
    if (current.None? || current.value == "") && dex != "" then Some(dex) else current
  }

  /** The merged value is always one of the two sources; it is non-empty exactly
      when either source is, and merging the same MangaDex value again changes
      nothing. */
  lemma FallbackSpec(current: Option<string>, dex: string)
    ensures Fallback(current, dex) == current || Fallback(current, dex) == Some(dex)
    ensures (Fallback(current, dex).Some? && Fallback(current, dex).value != "")
            <==> (current.Some? && current.value != "") || dex != ""
    ensures Fallback(Fallback(current, dex), dex) == Fallback(current, dex)
  {
  }

  /** The names of the `author` relationships, in order. */
  function DexAuthors(rels: seq<Relationship>): seq<string> {
    if rels == [] then []
    else DexAuthors(rels[..|rels| - 1])
         + (if rels[|rels| - 1].kind == "author" then [rels[|rels| - 1].name] else [])
  }

  /** Each author relationship gives exactly one name, in order. */
  lemma {:induction false} DexAuthorsSpec(rels: seq<Relationship>)
    ensures |DexAuthors(rels)| <= |rels|
    ensures forall x :: x in DexAuthors(rels) <==> exists i :: 0 <= i < |rels| && rels[i].kind == "author" && rels[i].name == x
  {
    if rels != [] {
      var init := rels[..|rels| - 1];
      DexAuthorsSpec(init);
      forall x | x in DexAuthors(rels)
        ensures exists i :: 0 <= i < |rels| && rels[i].kind == "author" && rels[i].name == x
      {
        if x in DexAuthors(init) {
          var i :| 0 <= i < |init| && init[i].kind == "author" && init[i].name == x;
          assert rels[i] == init[i];
        } else {
          assert rels[|rels| - 1].name == x;
        }
      }
      forall x | exists i :: 0 <= i < |rels| && rels[i].kind == "author" && rels[i].name == x
        ensures x in DexAuthors(rels)
      {
        var i :| 0 <= i < |rels| && rels[i].kind == "author" && rels[i].name == x;
        if i < |init| {
          assert init[i] == rels[i];
        }
      }
    }
  }

  /** The loop over `relationships` collecting author names. */
  method CollectDexAuthors(rels: seq<Relationship>) returns (names: seq<string>)
    ensures names == DexAuthors(rels)
  {
    names := [];
    for i := 0 to |rels|
      invariant names == DexAuthors(rels[..i])
    {
      assert rels[..i + 1][..i] == rels[..i];
      if rels[i].kind == "author" {
        names := names + [rels[i].name];
      }
    }
    assert rels[..|rels|] == rels;
  }

  function AsAuthors(names: seq<string>): (r: seq<Author>)
    ensures |r| == |names| && forall i :: 0 <= i < |names| ==> r[i] == AuthorDict(names[i], "")
  {
    seq(|names|, i requires 0 <= i < |names| => AuthorDict(names[i], ""))
  }

  /** The `source` entry: which of the two records took part. */
  function SourceOf(mal: Option<MalInfo>, dex: Option<DexInfo>): Option<string> {
    if dex.Some? then Some(if mal.Some? then "MangaDex + MyAnimeList" else "MangaDex")
    else if mal.Some? then Some("MyAnimeList")
    else None
  }

  /** `merge_manga_info`. A record given as None or as an empty dict counts as
      absent. */
  method MergeMangaInfo(mal: Option<MalInfo>, dex: Option<DexInfo>) returns (r: MergedInfo)
    ensures mal.None? && dex.None? ==> r == EmptyInfo
    ensures r.source == SourceOf(mal, dex)
    ensures var t := if mal.Some? then Some(mal.value.title) else None;
            r.title == if dex.Some? then Fallback(t, dex.value.titleEn) else t
    ensures var s := if mal.Some? then Some(mal.value.synopsis) else None;
            r.synopsis == if dex.Some? then Fallback(s, dex.value.descriptionEn) else s
    ensures r.genres == if mal.Some? then Some(mal.value.genres) else None
    ensures mal.Some? && mal.value.authors != [] ==> r.authors == Some(mal.value.authors)
    ensures (mal.None? || mal.value.authors == []) ==>
              r.authors == if dex.Some? && DexAuthors(dex.value.relationships) != []
                           then Some(AsAuthors(DexAuthors(dex.value.relationships)))
                           else if mal.Some? then Some([]) else None
    ensures dex.Some? ==> r.status == dex.value.status && r.year == dex.value.year
                          && r.contentRating == dex.value.contentRating
    ensures dex.None? ==> r.status.None? && r.year.None? && r.contentRating.None?
  {
    r := EmptyInfo;
    if mal.Some? {
      var m := mal.value;
      r := r.(title := Some(m.title), synopsis := Some(m.synopsis), genres := Some(m.genres),
              authors := Some(m.authors), source := Some("MyAnimeList"));
    }
    if dex.Some? {
      var d := dex.value;
      if (r.title.None? || r.title.value == "") && d.titleEn != "" {
        r := r.(title := Some(d.titleEn));
      }
      if d.descriptionEn != "" && (r.synopsis.None? || r.synopsis.value == "") {
        r := r.(synopsis := Some(d.descriptionEn));
      }
      r := r.(status := d.status, year := d.year, contentRating := d.contentRating);
      if r.authors.None? || r.authors.value == [] {
        var names := CollectDexAuthors(d.relationships);
        if names != [] {
          r := r.(authors := Some(AsAuthors(names)));
        }
      }
      r := r.(source := Some(if r.source.Some? then "MangaDex + MyAnimeList" else "MangaDex"));
    }
  }

  /** The four cases of the `source` entry. */
  lemma SourceCases(mal: Option<MalInfo>, dex: Option<DexInfo>)
    ensures SourceOf(mal, dex).None? <==> mal.None? && dex.None?
    ensures SourceOf(mal, dex) == Some("MyAnimeList") <==> mal.Some? && dex.None?
    ensures SourceOf(mal, dex) == Some("MangaDex + MyAnimeList") <==> mal.Some? && dex.Some?
    ensures SourceOf(mal, dex) == Some("MangaDex") <==> mal.None? && dex.Some?
  {
  }

  // ------------------------------------------------------------ PDF metadata

  /** The metadata handed to exiftool; None stands for a missing key. */
  datatype PdfMetadata = PdfMetadata(
    title: Option<string>, author: Option<string>, subject: Option<string>,
    keywords: Option<string>, creator: string, source: Option<string>)

  const CreatorName: string := "epub2pdf with MyAnimeList + MangaDex APIs"

  /** `sep.join(parts)`. */
  function JoinWith(parts: seq<string>, sep: string): string {
    if parts == [] then ""
    else if |parts| == 1 then parts[0]
    else JoinWith(parts[..|parts| - 1], sep) + sep + parts[|parts| - 1]
  }

  /** The name an author entry contributes, if any. */
  function AuthorName(a: Author): Option<string> {
    match a
    case AuthorDict(first, last) => if first != "" || last != "" then Some(Strip(first + " " + last)) else None
    case AuthorText(t) => Some(t)
  }

  function AuthorNames(authors: seq<Author>): seq<string> {
    if authors == [] then []
    else
      var n := AuthorName(authors[|authors| - 1]);
      AuthorNames(authors[..|authors| - 1]) + (if n.Some? then [n.value] else [])
  }

  /** Only the author dicts with both names empty are skipped. */
  lemma {:induction false} AuthorNamesCount(authors: seq<Author>)
    ensures |AuthorNames(authors)| == |authors| - SkippedAuthors(authors)
  {
    if authors != [] {
      AuthorNamesCount(authors[..|authors| - 1]);
    }
  }

  function SkippedAuthors(authors: seq<Author>): (n: nat)
    ensures n <= |authors|
  {
    if authors == [] then 0
    else SkippedAuthors(authors[..|authors| - 1]) + (if AuthorName(authors[|authors| - 1]).None? then 1 else 0)
  }

  /** The loop collecting `author_names`. */
  method CollectAuthorNames(authors: seq<Author>) returns (names: seq<string>)
    ensures names == AuthorNames(authors)
  {
    names := [];
    for i := 0 to |authors|
      invariant names == AuthorNames(authors[..i])
    {
      assert authors[..i + 1][..i] == authors[..i];
      match authors[i]
      case AuthorDict(first, last) =>
        if first != "" || last != "" {
          names := names + [Strip(first + " " + last)];
        }
      case AuthorText(t) =>
        names := names + [t];
    }
    assert authors[..|authors|] == authors;
  }

  function GenreName(g: Genre): string {
    match g
    case GenreDict(n) => n
    case GenreText(t) => t
  }

  function GenreNames(genres: seq<Genre>): (r: seq<string>)
    ensures |r| == |genres| && forall i :: 0 <= i < |genres| ==> r[i] == GenreName(genres[i])
  {
    seq(|genres|, i requires 0 <= i < |genres| => GenreName(genres[i]))
  }

  /** The loop collecting `genre_names`. */
  method CollectGenreNames(genres: seq<Genre>) returns (names: seq<string>)
    ensures names == GenreNames(genres)
  {
    names := [];
    for i := 0 to |genres|
      invariant names == GenreNames(genres[..i])
    {
      names := names + [GenreName(genres[i])];
    }
    assert genres[..|genres|] == genres;
  }

  /** The synopsis cut to 497 characters and "..." when longer than 500. */
  function Subject(synopsis: string): (r: string)
    ensures |r| <= 500 && (|synopsis| <= 500 ==> r == synopsis)
    ensures |synopsis| > 500 ==> r == synopsis[..497] + "..." && IsPrefix(r[..497], synopsis)
  {
    if |synopsis| > 500 then synopsis[..497] + "..." else synopsis
  }

  /** The characters `.strip(', ')` removes. */
  predicate IsJunk(c: char) { c == ',' || c == ' ' }

  /** `s.strip(', ')`. */
  function StripJunk(s: string): string
    decreases |s|
  {
    if s == [] then []
    else if IsJunk(s[0]) then StripJunk(s[1..])
    else if IsJunk(s[|s| - 1]) then StripJunk(s[..|s| - 1])
    else s
  }

  /** Neither starts nor ends with ',' or ' '. */
  predicate Clean(s: string) {
    s == [] || (!IsJunk(s[0]) && !IsJunk(s[|s| - 1]))
  }

  lemma {:induction false} StripJunkPrefix(p: string, x: string)
    requires (forall i :: 0 <= i < |p| ==> IsJunk(p[i])) && x != [] && Clean(x)
    ensures StripJunk(p + x) == x
    decreases |p|
  {
    if p == [] {
      assert p + x == x;
    } else {
      assert (p + x)[1..] == p[1..] + x;
      StripJunkPrefix(p[1..], x);
    }
  }

  /** `(keywords + ", " + item).strip(', ')`, with a missing keyword string
      read as empty. */
  function AddKeyword(keywords: Option<string>, item: string): string {
    StripJunk((if keywords.Some? then keywords.value else "") + ", " + item)
  }

  /** Adding a clean item to clean keywords is a plain append with ", ", or the
      item alone when there were no keywords: the strip only matters at the
      ends. */
  lemma AddKeywordClean(keywords: Option<string>, item: string)
    requires item != [] && Clean(item) && (keywords.Some? ==> Clean(keywords.value))
    ensures AddKeyword(keywords, item)
         == if keywords.None? || keywords.value == "" then item else keywords.value + ", " + item
  {
    var k := if keywords.Some? then keywords.value else "";
    if k == "" {
      assert k + ", " + item == ", " + item;
      StripJunkPrefix(", ", item);
    } else {
      var s := k + ", " + item;
      assert s[0] == k[0] && s[|s| - 1] == item[|item| - 1];
    }
  }

  /** The keyword text `_prepare_metadata` builds. */
  function Keywords(manga: MergedInfo, file: MangaInfo): Option<string> {
    var genres := if manga.genres.Some? then GenreNames(manga.genres.value) else [];
    var k0 := if genres != [] then Some(JoinWith(genres, ", ")) else None;
    var k1 := if Truthy(file.volume) then Some(AddKeyword(k0, "Volume " + file.volume.value)) else k0;
    var k2 := if Truthy(file.chapters) then Some(AddKeyword(k1, "Chapters " + file.chapters.value)) else k1;
    var k3 := if Truthy(manga.status) then Some(AddKeyword(k2, "Status: " + manga.status.value)) else k2;
    if manga.year.Some? && manga.year.value != 0 then Some(AddKeyword(k3, "Year: " + IntToString(manga.year.value)))
    else k3
  }

  predicate Truthy(s: Option<string>) { s.Some? && s.value != "" }

  /** The entries added after the genres, in order. */
  function KeywordItems(manga: MergedInfo, file: MangaInfo): seq<string> {
    (if manga.genres.Some? then GenreNames(manga.genres.value) else [])
    + (if Truthy(file.volume) then ["Volume " + file.volume.value] else [])
    + (if Truthy(file.chapters) then ["Chapters " + file.chapters.value] else [])
    + (if Truthy(manga.status) then ["Status: " + manga.status.value] else [])
    + (if manga.year.Some? && manga.year.value != 0 then ["Year: " + IntToString(manga.year.value)] else [])
  }

  predicate AllClean(items: seq<string>) {
    forall i :: 0 <= i < |items| ==> items[i] != [] && Clean(items[i])
  }

  function JoinOpt(items: seq<string>): Option<string> {
    if items == [] then None else Some(JoinWith(items, ", "))
  }

  lemma {:induction false} JoinClean(items: seq<string>)
    requires items != [] && AllClean(items)
    ensures JoinWith(items, ", ") != [] && Clean(JoinWith(items, ", "))
    ensures JoinWith(items, ", ")[0] == items[0][0]
  {
    if |items| > 1 {
      var init := items[..|items| - 1];
      JoinClean(init);
      var j := JoinWith(init, ", ");
      var last := items[|items| - 1];
      var s := j + ", " + last;
      assert s[0] == j[0] && s[|s| - 1] == last[|last| - 1];
    }
  }

  /** One more clean item joins the list. */
  lemma AddToJoin(items: seq<string>, item: string)
    requires AllClean(items) && item != [] && Clean(item)
    ensures Some(AddKeyword(JoinOpt(items), item)) == JoinOpt(items + [item])
  {
    if items != [] {
      JoinClean(items);
      assert (items + [item])[..|items|] == items;
    }
    AddKeywordClean(JoinOpt(items), item);
  }

  lemma AllCleanSplit(a: seq<string>, b: seq<string>)
    requires AllClean(a + b)
    ensures AllClean(a) && AllClean(b)
  {
    assert forall i :: 0 <= i < |a| ==> a[i] == (a + b)[i];
    assert forall i :: 0 <= i < |b| ==> b[i] == (a + b)[|a| + i];
  }

  /** One optional keyword entry, added as `_prepare_metadata` adds it. */
  function AddOptional(k: Option<string>, opt: seq<string>): Option<string>
    requires |opt| <= 1
  {
    if opt == [] then k else Some(AddKeyword(k, opt[0]))
  }

  lemma AddOptionalJoin(items: seq<string>, opt: seq<string>)
    requires |opt| <= 1 && AllClean(items) && AllClean(opt)
    ensures AddOptional(JoinOpt(items), opt) == JoinOpt(items + opt)
  {
    if opt == [] {
      assert items + opt == items;
    } else {
      assert opt == [opt[0]];
      AddToJoin(items, opt[0]);
    }
  }

  /** When every keyword item is non-empty and starts and ends with neither
      ',' nor ' ', the keywords are the genres, volume, chapters, status and
      year joined with ", ", in that order, and missing when there is none. */
  lemma KeywordsJoin(manga: MergedInfo, file: MangaInfo)
    requires AllClean(KeywordItems(manga, file))
    ensures Keywords(manga, file) == JoinOpt(KeywordItems(manga, file))
  {
    var g := if manga.genres.Some? then GenreNames(manga.genres.value) else [];
    var v := if Truthy(file.volume) then ["Volume " + file.volume.value] else [];
    var c := if Truthy(file.chapters) then ["Chapters " + file.chapters.value] else [];
    var s := if Truthy(manga.status) then ["Status: " + manga.status.value] else [];
    var y := if manga.year.Some? && manga.year.value != 0 then ["Year: " + IntToString(manga.year.value)] else [];
    AllCleanSplit(g + v + c + s, y);
    AllCleanSplit(g + v + c, s);
    AllCleanSplit(g + v, c);
    AllCleanSplit(g, v);
    var k0 := if g != [] then Some(JoinWith(g, ", ")) else None;
    assert k0 == JoinOpt(g);
    AddOptionalJoin(g, v);
    AddOptionalJoin(g + v, c);
    AddOptionalJoin(g + v + c, s);
    AddOptionalJoin(g + v + c + s, y);
  }

  /** The keywords never start or end with ',' or ' ' once a file or record
      entry has been added. */
  lemma StripJunkClean(s: string)
    ensures Clean(StripJunk(s))
    decreases |s|
  {
    if s != [] {
      if IsJunk(s[0]) {
        StripJunkClean(s[1..]);
      } else if IsJunk(s[|s| - 1]) {
        StripJunkClean(s[..|s| - 1]);
      }
    }
  }

  /** `_prepare_metadata`, without the creation date. */
  method PrepareMetadata(manga: MergedInfo, file: MangaInfo) returns (r: PdfMetadata)
    ensures var title := if manga.title.Some? then manga.title.value else file.title;
            r.title == if title != "" then Some(title) else None
    ensures var authors := if manga.authors.Some? then manga.authors.value else [];
            r.author == if AuthorNames(authors) != [] then Some(JoinWith(AuthorNames(authors), "; ")) else None
    ensures var synopsis := if manga.synopsis.Some? then manga.synopsis.value else "";
            r.subject == if synopsis != "" then Some(Subject(synopsis)) else None
    ensures r.keywords == Keywords(manga, file)
    ensures r.creator == CreatorName
    ensures r.source == if Truthy(file.scanGroup) then Some("Scanned by " + file.scanGroup.value) else None
  {
    var title: Option<string> := None;
    var t := if manga.title.Some? then manga.title.value else file.title;
    if t != "" {
      title := Some(t);
    }
    var author: Option<string> := None;
    var authors := if manga.authors.Some? then manga.authors.value else [];
    if authors != [] {
      var names := CollectAuthorNames(authors);
      if names != [] {
        author := Some(JoinWith(names, "; "));
      }
    }
    var subject: Option<string> := None;
    var synopsis := if manga.synopsis.Some? then manga.synopsis.value else "";
    if synopsis != "" {
      if |synopsis| > 500 {
        synopsis := synopsis[..497] + "...";
      }
      subject := Some(synopsis);
    }
    var keywords := BuildKeywords(manga, file);
    var source: Option<string> := None;
    if Truthy(file.scanGroup) {
      source := Some("Scanned by " + file.scanGroup.value);
    }
    r := PdfMetadata(title, author, subject, keywords, CreatorName, source);
  }

  /** The keyword part of `_prepare_metadata`: the genre names joined, then
      each file and record entry added in turn. */
  method BuildKeywords(manga: MergedInfo, file: MangaInfo) returns (keywords: Option<string>)
    ensures keywords == Keywords(manga, file)
  {
    keywords := None;
    var genres := if manga.genres.Some? then manga.genres.value else [];
    if genres != [] {
      var names := CollectGenreNames(genres);
      if names != [] {
        keywords := Some(JoinWith(names, ", "));
      }
    }
    if Truthy(file.volume) {
      keywords := Some(AddKeyword(keywords, "Volume " + file.volume.value));
    }
    if Truthy(file.chapters) {
      keywords := Some(AddKeyword(keywords, "Chapters " + file.chapters.value));
    }
    if Truthy(manga.status) {
      keywords := Some(AddKeyword(keywords, "Status: " + manga.status.value));
    }
    if manga.year.Some? && manga.year.value != 0 {
      keywords := Some(AddKeyword(keywords, "Year: " + IntToString(manga.year.value)));
    }
  }
}
