/** What every converter shares: the natural sort key of file names (numbers compared
    by value, text without regard to case) and the image-extension test. */
module BaseConverter {
  import opened Common
  import opened Sorting
  import opened PyCompare

  /** One element of the list `re.split('([0-9]+)', name)` turns into: a lowered
      text run, or the value of a digit run. */
  datatype KeyPart = Text(t: string) | Num(n: nat)

  /** `<` between key elements. Python raises TypeError for a string against an
      integer; KeyShape shows two natural keys never put them face to face, so the
      answer given for that case is never consulted. */
  function PartLt(a: KeyPart, b: KeyPart): bool {
    match (a, b)
    case (Text(x), Text(y)) => StrLt(x, y)
    case (Num(x), Num(y)) => x < y
    case (Text(_), Num(_)) => true
    case (Num(_), Text(_)) => false
  }

  /** `<` between two keys (Python list comparison). */
  function KeyLt(a: seq<KeyPart>, b: seq<KeyPart>): bool {
    LexLt(a, b, PartLt)
  }

  /** Length of the leading run without ASCII digits. */
  function TextRun(s: string): (n: nat)
    ensures n <= |s|
    ensures forall i :: 0 <= i < n ==> !IsAsciiDigit(s[i])
    ensures n < |s| ==> IsAsciiDigit(s[n])
  {
    if s == [] || IsAsciiDigit(s[0]) then 0 else 1 + TextRun(s[1..])
  }

  /** Length of the leading run of ASCII digits. */
  function DigitRun(s: string): (n: nat)
    ensures n <= |s|
    ensures forall i :: 0 <= i < n ==> IsAsciiDigit(s[i])
    ensures n < |s| ==> !IsAsciiDigit(s[n])
  {
    if s == [] || !IsAsciiDigit(s[0]) then 0 else 1 + DigitRun(s[1..])
  }

  predicate AllDigits(d: string) {
    forall i :: 0 <= i < |d| ==> IsAsciiDigit(d[i])
  }

  /** `int(d)` for a run of decimal digits. */
  function DigitsValue(d: string): nat
    requires AllDigits(d)
  {
    if d == [] then 0 else DigitsValue(d[..|d| - 1]) * 10 + (d[|d| - 1] as int - '0' as int)
  }

  /** `_natural_sort_key`: alternating lowered text runs and digit-run values,
      beginning and ending with a (possibly empty) text run. */
  function NaturalKey(s: string): seq<KeyPart>
    decreases |s|
  {
    var t := TextRun(s);
    if t == |s| then [Text(Lower(s))]
    else
      var rest := s[t..];
      var d := DigitRun(rest);
      [Text(Lower(s[..t])), Num(DigitsValue(rest[..d]))] + NaturalKey(rest[d..])
  }

  /** The relation `sort(key=_natural_sort_key)` orders paths by. */
  function NaturalLe(x: string, y: string): bool {
    !KeyLt(NaturalKey(y), NaturalKey(x))
  }

  const ImageExtensions: set<string> := {".jpg", ".jpeg", ".png", ".gif", ".bmp", ".webp"}

  /** `_is_image_file`: the lowered suffix of the final component is a known image
      extension. */
  predicate IsImageFile(filename: string) {
    Lower(PathSuffix(filename)) in ImageExtensions
  }

  // ------------------------------------------------------------------ lemmas

  /** Text runs at the even positions, numbers at the odd ones, odd length. */
  predicate Alternates(k: seq<KeyPart>) {
    |k| % 2 == 1 && forall i :: 0 <= i < |k| ==> (k[i].Text? <==> i % 2 == 0)
  }

  lemma AlternatesCons(a: KeyPart, b: KeyPart, k: seq<KeyPart>)
    requires a.Text? && b.Num? && Alternates(k)
    ensures Alternates([a, b] + k)
  {
    var key := [a, b] + k;
    forall i | 2 <= i < |key| ensures key[i].Text? <==> i % 2 == 0 {
      assert key[i] == k[i - 2];
    }
  }

  /** Every natural key alternates text and numbers, starting and ending with
      text. */
  lemma {:induction false} KeyShape(s: string)
    ensures Alternates(NaturalKey(s))
    decreases |s|
  {
    var t := TextRun(s);
    if t < |s| {
      var rest := s[t..];
      var d := DigitRun(rest);
      KeyShape(rest[d..]);
      AlternatesCons(Text(Lower(s[..t])), Num(DigitsValue(rest[..d])), NaturalKey(rest[d..]));
    }
  }

  /** Two natural keys agree in kind position by position, so comparing them never
      puts a string against an integer. */
  lemma KindsAgree(x: string, y: string, i: nat)
    requires i < |NaturalKey(x)| && i < |NaturalKey(y)|
    ensures NaturalKey(x)[i].Text? == NaturalKey(y)[i].Text?
  {
    KeyShape(x);
    KeyShape(y);
  }

  lemma PartLtStrictTotalOrder()
    ensures StrictTotalOrder(PartLt)
  {
    StrLtStrictTotalOrder();
  }

  lemma KeyLtStrictTotalOrder()
    ensures StrictTotalOrder(KeyLt)
  {
    PartLtStrictTotalOrder();
    forall a: seq<KeyPart> ensures !KeyLt(a, a) {
      LexIrreflexive(a, PartLt);
    }
    forall a: seq<KeyPart>, b: seq<KeyPart>, c: seq<KeyPart> | KeyLt(a, b) && KeyLt(b, c)
      ensures KeyLt(a, c)
    {
      LexTransitive(a, b, c, PartLt);
    }
    forall a: seq<KeyPart>, b: seq<KeyPart> | a != b ensures KeyLt(a, b) || KeyLt(b, a) {
      LexTotal(a, b, PartLt);
    }
  }

  /** Sorting by the natural key is a legitimate sort: the relation is total and
      transitive. */
  lemma NaturalLeTotalPreorder()
    ensures TotalPreorder(NaturalLe)
  {
    KeyLtStrictTotalOrder();
    ByKeyTotalPreorder(NaturalKey, KeyLt);
    assert forall x, y :: NaturalLe(x, y) == ByKey(NaturalKey, KeyLt)(x, y);
  }

  lemma {:induction false} TextRunLower(s: string)
    ensures TextRun(Lower(s)) == TextRun(s)
    decreases |s|
  {
    if s != [] {
      assert Lower(s)[1..] == Lower(s[1..]);
      TextRunLower(s[1..]);
    }
  }

  lemma {:induction false} DigitRunLower(s: string)
    ensures DigitRun(Lower(s)) == DigitRun(s)
    decreases |s|
  {
    if s != [] {
      assert Lower(s)[1..] == Lower(s[1..]);
      DigitRunLower(s[1..]);
    }
  }

  lemma LowerIdempotent(s: string)
    ensures Lower(Lower(s)) == Lower(s)
  {
  }

  /** The key ignores letter case: a name and its lowered form sort together. */
  lemma {:induction false} NaturalKeyIgnoresCase(s: string)
    ensures NaturalKey(Lower(s)) == NaturalKey(s)
    decreases |s|
  {
    var l := Lower(s);
    TextRunLower(s);
    var t := TextRun(s);
    LowerIdempotent(s);
    if t < |s| {
      var rest, lrest := s[t..], l[t..];
      assert lrest == Lower(rest);
      DigitRunLower(rest);
      var d := DigitRun(rest);
      assert lrest[..d] == rest[..d];
      assert lrest[d..] == Lower(rest[d..]);
      NaturalKeyIgnoresCase(rest[d..]);
      LowerSlice(s, 0, t);
      assert Lower(l[..t]) == Lower(s[..t]);
    }
  }

  lemma {:induction false} DigitsValueOfNat(n: nat)
    ensures AllDigits(NatToString(n)) && DigitsValue(NatToString(n)) == n
    decreases n
  {
    if n >= 10 {
      DigitsValueOfNat(n / 10);
      var s := NatToString(n);
      assert s[..|s| - 1] == NatToString(n / 10);
    }
  }

  lemma {:induction false} DigitsValueLeadingZero(d: string)
    requires AllDigits(d)
    ensures AllDigits("0" + d) && DigitsValue("0" + d) == DigitsValue(d)
    decreases |d|
  {
    if d != [] {
      var z := "0" + d;
      assert z[..|z| - 1] == "0" + d[..|d| - 1];
      DigitsValueLeadingZero(d[..|d| - 1]);
    }
  }

  /** The key of `text + digits + tail`, where `text` has no digit and `tail` does
      not start with one. */
  lemma KeyOfNumbered(text: string, digits: string, tail: string)
    requires forall i :: 0 <= i < |text| ==> !IsAsciiDigit(text[i])
    requires |digits| > 0 && AllDigits(digits)
    requires tail == [] || !IsAsciiDigit(tail[0])
    ensures NaturalKey(text + digits + tail)
         == [Text(Lower(text)), Num(DigitsValue(digits))] + NaturalKey(tail)
  {
    var s := text + digits + tail;
    TextRunPrefix(text, digits + tail);
    assert s == text + (digits + tail);
    var rest := s[|text|..];
    assert rest == digits + tail;
    DigitRunPrefix(digits, tail);
    assert rest[..|digits|] == digits;
    assert rest[|digits|..] == tail;
    assert s[..|text|] == text;
  }

  lemma {:induction false} TextRunPrefix(text: string, more: string)
    requires forall i :: 0 <= i < |text| ==> !IsAsciiDigit(text[i])
    requires more != [] && IsAsciiDigit(more[0])
    ensures TextRun(text + more) == |text|
    decreases |text|
  {
    if text != [] {
      assert (text + more)[1..] == text[1..] + more;
      TextRunPrefix(text[1..], more);
    }
  }

  lemma {:induction false} DigitRunPrefix(digits: string, tail: string)
    requires AllDigits(digits)
    requires tail == [] || !IsAsciiDigit(tail[0])
    ensures DigitRun(digits + tail) == |digits|
    decreases |digits|
  {
    if digits != [] {
      assert (digits + tail)[1..] == digits[1..] + tail;
      DigitRunPrefix(digits[1..], tail);
    } else {
      assert digits + tail == tail;
    }
  }

  /** Numbers compare by value: "page2" sorts before "page10" although "1" < "2". */
  lemma NumbersCompareByValue(text: string, m: nat, n: nat, tail: string)
    requires forall i :: 0 <= i < |text| ==> !IsAsciiDigit(text[i])
    requires tail == [] || !IsAsciiDigit(tail[0])
    requires m < n
    ensures NaturalLe(text + NatToString(m) + tail, text + NatToString(n) + tail)
    ensures !NaturalLe(text + NatToString(n) + tail, text + NatToString(m) + tail)
  {
    DigitsValueOfNat(m);
    DigitsValueOfNat(n);
    KeyOfNumbered(text, NatToString(m), tail);
    KeyOfNumbered(text, NatToString(n), tail);
    KeysDifferingInNumber(Lower(text), m, n, NaturalKey(tail));
  }

  lemma KeysDifferingInNumber(t: string, m: nat, n: nat, rest: seq<KeyPart>)
    requires m < n
    ensures KeyLt([Text(t), Num(m)] + rest, [Text(t), Num(n)] + rest)
    ensures !KeyLt([Text(t), Num(n)] + rest, [Text(t), Num(m)] + rest)
  {
    var km, kn := [Text(t), Num(m)] + rest, [Text(t), Num(n)] + rest;
    assert km[0] == kn[0] && km != [] && kn != [];
    assert km[1..][0] == Num(m) && kn[1..][0] == Num(n);
    assert LexLt(km[1..], kn[1..], PartLt) && !LexLt(kn[1..], km[1..], PartLt);
  }

  /** Leading zeros do not matter: "p01" and "p1" have the same key. */
  lemma LeadingZerosIgnored(text: string, digits: string, tail: string)
    requires forall i :: 0 <= i < |text| ==> !IsAsciiDigit(text[i])
    requires |digits| > 0 && AllDigits(digits)
    requires tail == [] || !IsAsciiDigit(tail[0])
    ensures NaturalKey(text + ("0" + digits) + tail) == NaturalKey(text + digits + tail)
  {
    DigitsValueLeadingZero(digits);
    KeyOfNumbered(text, "0" + digits, tail);
    KeyOfNumbered(text, digits, tail);
  }

  lemma NameWithoutSlash(p: Path)
    requires '/' !in p
    ensures Name(p) == p
  {
  }

  /** A bare file name is an image exactly when its extension, lowered, is one of
      the six known ones, whatever its case. */
  lemma ImageFileByExtension(stem: string, ext: string)
    requires |stem| > 0 && |ext| > 0 && '.' !in ext && '/' !in ext && '/' !in stem
    ensures IsImageFile(stem + "." + ext) <==> "." + Lower(ext) in ImageExtensions
  {
    var n := stem + "." + ext;
    assert '/' !in n by {
      forall i | 0 <= i < |n| ensures n[i] != '/' {
        if i < |stem| { assert n[i] == stem[i]; }
        else if i > |stem| { assert n[i] == ext[i - |stem| - 1]; }
      }
    }
    NameWithoutSlash(n);
    SuffixOfDotted(stem, ext);
    assert PathSuffix(n) == "." + ext;
    LowerAppend(".", ext);
    assert Lower(".") == ".";
  }
}
