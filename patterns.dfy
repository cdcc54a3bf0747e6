/** The file-name regular expressions of the file manager and the metadata
    manager all have the shape `^(.+?)` followed by a tail of literals,
    character classes, `\s*`, `\s+`, optional literals and captured `\d+` or
    `[^c]+` runs. In each such tail every repetition is followed by a token
    that its own characters cannot start, so the greedy choice is the only
    one that can succeed and the tail matches deterministically. The lazy
    first group is then the shortest newline-free prefix after which the tail
    matches. */
module Patterns {
  import opened Common
  import opened BaseConverter

  datatype Token =
    | Spaces            // \s*
    | Spaces1           // \s+
    | Lit(c: char)      // one literal character
    | OneOf(cs: set<char>)  // [..]
    | OptLit(c: char)   // c?
    | Digits            // (\d+), captured
    | Until(stop: char) // ([^stop]+), captured

  /** The literal characters of `s`, one token each. */
  function Lits(s: string): (r: seq<Token>)
    ensures |r| == |s| && forall i :: 0 <= i < |s| ==> r[i] == Lit(s[i])
  {
    if s == [] then [] else [Lit(s[0])] + Lits(s[1..])
  }

  /** Length of the leading run of whitespace. */
  function SpaceRun(s: string): (n: nat)
    ensures n <= |s|
    ensures forall i :: 0 <= i < n ==> IsSpace(s[i])
    ensures n < |s| ==> !IsSpace(s[n])
  {
    if s == [] || !IsSpace(s[0]) then 0 else 1 + SpaceRun(s[1..])
  }

  /** Length of the leading run of characters other than `stop`. */
  function UntilRun(s: string, stop: char): (n: nat)
    ensures n <= |s|
    ensures forall i :: 0 <= i < n ==> s[i] != stop
    ensures n < |s| ==> s[n] == stop
  {
    if s == [] || s[0] == stop then 0 else 1 + UntilRun(s[1..], stop)
  }

  predicate Capturing(t: Token) {
    t.Digits? || t.Until?
  }

  /** The capturing tokens of a tail, in order: one per group. */
  function CaptureKinds(toks: seq<Token>): seq<Token> {
    if toks == [] then []
    else (if Capturing(toks[0]) then [toks[0]] else []) + CaptureKinds(toks[1..])
  }

  /** The number of groups a tail captures. */
  function Captures(toks: seq<Token>): nat {
    |CaptureKinds(toks)|
  }

  /** Tokens that capture nothing. */
  predicate Plain(toks: seq<Token>) {
    forall i :: 0 <= i < |toks| ==> !Capturing(toks[i])
  }

  /** The groups of two tails in a row are those of each. */
  lemma {:induction false} CaptureKindsAppend(a: seq<Token>, b: seq<Token>)
    ensures CaptureKinds(a + b) == CaptureKinds(a) + CaptureKinds(b)
  {
    if a == [] {
      assert a + b == b;
    } else {
      assert (a + b)[0] == a[0] && (a + b)[1..] == a[1..] + b;
      CaptureKindsAppend(a[1..], b);
      var h: seq<Token> := if Capturing(a[0]) then [a[0]] else [];
      var x, y := CaptureKinds(a[1..]), CaptureKinds(b);
      assert CaptureKinds(a) == h + x;
      assert CaptureKinds(a + b) == h + (x + y);
      assert h + (x + y) == (h + x) + y;
    }
  }

  lemma {:induction false} PlainCapturesNothing(toks: seq<Token>)
    requires Plain(toks)
    ensures CaptureKinds(toks) == []
  {
    if toks != [] {
      assert Plain(toks[1..]) by {
        forall i | 0 <= i < |toks[1..]| ensures !Capturing(toks[1..][i]) {
          assert toks[1..][i] == toks[i + 1];
        }
      }
      PlainCapturesNothing(toks[1..]);
    }
  }

  /** Literals capture nothing. */
  lemma LitsArePlain(s: string)
    ensures Plain(Lits(s)) && CaptureKinds(Lits(s)) == []
  {
    PlainCapturesNothing(Lits(s));
  }

  /** Appending tokens that capture nothing adds no group. */
  lemma AppendPlain(a: seq<Token>, b: seq<Token>)
    requires Plain(b)
    ensures CaptureKinds(a + b) == CaptureKinds(a)
  {
    CaptureKindsAppend(a, b);
    PlainCapturesNothing(b);
  }

  /** Appending one capturing token adds its group. */
  lemma AppendCapture(a: seq<Token>, t: Token)
    requires Capturing(t)
    ensures CaptureKinds(a + [t]) == CaptureKinds(a) + [t]
  {
    CaptureKindsAppend(a, [t]);
    assert [t][1..] == [];
  }

  /** A group `g` captured by token `t`: a non-empty digit run for `(\d+)`,
      a non-empty run free of `c` for `([^c]+)`. */
  predicate Fits(g: string, t: Token) {
    g != [] &&
    match t
    case Digits => AllDigits(g)
    case Until(c) => c !in g
    case _ => true
  }

  /** Every group fits the token that captured it. */
  predicate GroupsFit(gs: seq<string>, kinds: seq<Token>) {
    |gs| == |kinds| && forall k :: 0 <= k < |gs| ==> Fits(gs[k], kinds[k])
  }

  /** The tail matched from position `i`: the captured groups, or None. */
  function MatchAt(s: string, i: nat, toks: seq<Token>): (r: Option<seq<string>>)
    requires i <= |s|
    ensures r.Some? ==> |r.value| == Captures(toks)
    decreases |toks|
  {
    if toks == [] then Some([])
    else
      match toks[0]
      case Spaces => MatchAt(s, i + SpaceRun(s[i..]), toks[1..])
      case Spaces1 =>
        var n := SpaceRun(s[i..]);
        if n == 0 then None else MatchAt(s, i + n, toks[1..])
      case Lit(c) => if i < |s| && s[i] == c then MatchAt(s, i + 1, toks[1..]) else None
      case OneOf(cs) => if i < |s| && s[i] in cs then MatchAt(s, i + 1, toks[1..]) else None
      case OptLit(c) => if i < |s| && s[i] == c then MatchAt(s, i + 1, toks[1..]) else MatchAt(s, i, toks[1..])
      case Digits =>
        var n := DigitRun(s[i..]);
        if n == 0 then None
        else
          var rest := MatchAt(s, i + n, toks[1..]);
          if rest.None? then None else Some([s[i..i + n]] + rest.value)
      case Until(stop) =>
        var n := UntilRun(s[i..], stop);
        if n == 0 then None
        else
          var rest := MatchAt(s, i + n, toks[1..]);
          if rest.None? then None else Some([s[i..i + n]] + rest.value)
  }

  /** `(.+?)` tried with lengths `k`, `k + 1`, ...; `.` stops at a newline. */
  function LazyFrom(s: string, toks: seq<Token>, k: nat): (r: Option<seq<string>>)
    requires k >= 1
    ensures r.Some? ==> |r.value| == 1 + Captures(toks)
    decreases |s| + 1 - k
  {
    if k > |s| || s[k - 1] == '\n' then None
    else
      var m := MatchAt(s, k, toks);
      if m.Some? then Some([s[..k]] + m.value) else LazyFrom(s, toks, k + 1)
  }

  /** `re.match('^(.+?)' + tail, s)`: all groups, the lazy one first. */
  function MatchLazy(s: string, toks: seq<Token>): (r: Option<seq<string>>)
    ensures r.Some? ==> |r.value| == 1 + Captures(toks)
  {
    LazyFrom(s, toks, 1)
  }

  predicate NewlineFree(s: string) {
    forall i :: 0 <= i < |s| ==> s[i] != '\n'
  }

  /** The lazy group is the shortest newline-free prefix of at least `k`
      characters after which the tail matches; no match means no such
      prefix. */
  lemma {:induction false} LazyFromSpec(s: string, toks: seq<Token>, k: nat)
    requires k >= 1 && k - 1 <= |s| && NewlineFree(s[..k - 1])
    ensures LazyFrom(s, toks, k).Some? ==>
              var g := LazyFrom(s, toks, k).value[0];
              k <= |g| <= |s| && g == s[..|g|] && NewlineFree(g)
              && MatchAt(s, |g|, toks) == Some(LazyFrom(s, toks, k).value[1..])
              && forall j :: k <= j < |g| ==> MatchAt(s, j, toks).None?
    ensures LazyFrom(s, toks, k).None? ==>
              forall j :: k <= j <= |s| && NewlineFree(s[..j]) ==> MatchAt(s, j, toks).None?
    decreases |s| + 1 - k
  {
    if k > |s| {
    } else if s[k - 1] == '\n' {
      NewlineBlocks(s, k);
    } else {
      NewlineFreeExtend(s, k);
      var m := MatchAt(s, k, toks);
      if m.None? {
        LazyFromSpec(s, toks, k + 1);
      } else {
        var r := [s[..k]] + m.value;
        assert r[0] == s[..k] && r[1..] == m.value;
      }
    }
  }

  lemma NewlineBlocks(s: string, k: nat)
    requires 1 <= k <= |s| && s[k - 1] == '\n'
    ensures forall j :: k <= j <= |s| ==> !NewlineFree(s[..j])
  {
    forall j | k <= j <= |s| ensures !NewlineFree(s[..j]) {
      assert s[..j][k - 1] == '\n';
    }
  }

  lemma NewlineFreeExtend(s: string, k: nat)
    requires 1 <= k <= |s| && s[k - 1] != '\n' && NewlineFree(s[..k - 1])
    ensures NewlineFree(s[..k])
  {
    forall i | 0 <= i < k ensures s[..k][i] != '\n' {
      if i < k - 1 { assert s[..k][i] == s[..k - 1][i]; }
    }
  }

  /** `re.match` of the whole pattern: the first group is the shortest
      non-empty newline-free prefix after which the tail matches. */
  lemma MatchLazySpec(s: string, toks: seq<Token>)
    ensures MatchLazy(s, toks).Some? ==>
              var g := MatchLazy(s, toks).value[0];
              1 <= |g| <= |s| && g == s[..|g|] && NewlineFree(g)
              && MatchAt(s, |g|, toks) == Some(MatchLazy(s, toks).value[1..])
              && forall j :: 1 <= j < |g| ==> MatchAt(s, j, toks).None?
    ensures MatchLazy(s, toks).None? <==>
              forall j :: 1 <= j <= |s| && NewlineFree(s[..j]) ==> MatchAt(s, j, toks).None?
  {
    assert s[..0] == [];
    LazyFromSpec(s, toks, 1);
    var r := MatchLazy(s, toks);
    if r.Some? {
      var g := r.value[0];
      assert 1 <= |g| <= |s| && NewlineFree(s[..|g|]) && MatchAt(s, |g|, toks).Some?;
    }
  }

  /** The groups of a whole match: the lazy prefix, then one group per
      capturing token of the tail, each fitting it. */
  lemma MatchLazyGroups(s: string, toks: seq<Token>)
    requires MatchLazy(s, toks).Some?
    ensures var g := MatchLazy(s, toks).value;
            1 <= |g[0]| <= |s| && g[0] == s[..|g[0]|] && GroupsFit(g[1..], CaptureKinds(toks))
  {
    MatchLazySpec(s, toks);
    MatchAtFits(s, |MatchLazy(s, toks).value[0]|, toks);
  }

  /** One token of a successful match: where it leaves the match and the
      group it captures, if any. */
  lemma MatchAtUnfold(s: string, i: nat, toks: seq<Token>) returns (j: nat)
    requires i <= |s| && toks != [] && MatchAt(s, i, toks).Some?
    ensures i <= j <= |s| && MatchAt(s, j, toks[1..]).Some?
    ensures MatchAt(s, i, toks).value
         == (if Capturing(toks[0]) then [s[i..j]] else []) + MatchAt(s, j, toks[1..]).value
    ensures Capturing(toks[0]) ==> Fits(s[i..j], toks[0])
  {
    if toks[0].Digits? {
      j := UnfoldDigits(s, i, toks);
    } else if toks[0].Until? {
      j := UnfoldUntil(s, i, toks);
    } else {
      j := UnfoldPlain(s, i, toks);
      assert [] + MatchAt(s, j, toks[1..]).value == MatchAt(s, j, toks[1..]).value;
    }
  }

  lemma UnfoldPlain(s: string, i: nat, toks: seq<Token>) returns (j: nat)
    requires i <= |s| && toks != [] && !Capturing(toks[0]) && MatchAt(s, i, toks).Some?
    ensures i <= j <= |s| && MatchAt(s, i, toks) == MatchAt(s, j, toks[1..])
  {
    if toks[0].Spaces? || toks[0].Spaces1? {
      j := UnfoldSpaces(s, i, toks);
    } else {
      j := UnfoldOne(s, i, toks);
    }
  }

  lemma UnfoldSpaces(s: string, i: nat, toks: seq<Token>) returns (j: nat)
    requires i <= |s| && toks != [] && (toks[0].Spaces? || toks[0].Spaces1?)
    requires MatchAt(s, i, toks).Some?
    ensures i <= j <= |s| && MatchAt(s, i, toks) == MatchAt(s, j, toks[1..])
  {
    j := i + SpaceRun(s[i..]);
  }

  lemma UnfoldOne(s: string, i: nat, toks: seq<Token>) returns (j: nat)
    requires i <= |s| && toks != [] && (toks[0].Lit? || toks[0].OneOf? || toks[0].OptLit?)
    requires MatchAt(s, i, toks).Some?
    ensures i <= j <= |s| && MatchAt(s, i, toks) == MatchAt(s, j, toks[1..])
  {
    if toks[0].OptLit? {
      j := if i < |s| && s[i] == toks[0].c then i + 1 else i;
    } else {
      j := i + 1;
    }
  }

  lemma UnfoldDigits(s: string, i: nat, toks: seq<Token>) returns (j: nat)
    requires i <= |s| && toks != [] && toks[0] == Digits && MatchAt(s, i, toks).Some?
    ensures i <= j <= |s| && MatchAt(s, j, toks[1..]).Some?
    ensures MatchAt(s, i, toks).value == [s[i..j]] + MatchAt(s, j, toks[1..]).value
    ensures Fits(s[i..j], Digits)
  {
    var n := DigitRun(s[i..]);
    j := i + n;
    var rest := MatchAt(s, j, toks[1..]);
    assert n != 0 && rest.Some?;
    assert MatchAt(s, i, toks).value == [s[i..j]] + rest.value;
    DigitsCaptured(s, i, toks);
  }

  lemma UnfoldUntil(s: string, i: nat, toks: seq<Token>) returns (j: nat)
    requires i <= |s| && toks != [] && toks[0].Until? && MatchAt(s, i, toks).Some?
    ensures i <= j <= |s| && MatchAt(s, j, toks[1..]).Some?
    ensures MatchAt(s, i, toks).value == [s[i..j]] + MatchAt(s, j, toks[1..]).value
    ensures Fits(s[i..j], toks[0])
  {
    var n := UntilRun(s[i..], toks[0].stop);
    j := i + n;
    var rest := MatchAt(s, j, toks[1..]);
    assert n != 0 && rest.Some?;
    assert MatchAt(s, i, toks).value == [s[i..j]] + rest.value;
    assert s[i..j] == s[i..][..n];
  }

  /** `t` is a non-empty prefix of `s`, stripped: what `group(1).strip()`
      gives for a lazy first group. */
  predicate StrippedPrefix(t: string, s: string) {
    exists k :: 1 <= k <= |s| && t == Strip(s[..k])
  }

  /** The groups a tail captures fit the tokens that capture them. */
  lemma {:induction false} MatchAtFits(s: string, i: nat, toks: seq<Token>)
    requires i <= |s| && MatchAt(s, i, toks).Some?
    ensures GroupsFit(MatchAt(s, i, toks).value, CaptureKinds(toks))
    decreases |toks|
  {
    if toks != [] {
      var j := MatchAtUnfold(s, i, toks);
      MatchAtFits(s, j, toks[1..]);
    }
  }

  /** A captured `\d+` group is a non-empty run of digits that the tail does
      not continue with a digit. */
  lemma {:induction false} DigitsCaptured(s: string, i: nat, toks: seq<Token>)
    requires i <= |s| && toks != [] && toks[0] == Digits && MatchAt(s, i, toks).Some?
    ensures var g := MatchAt(s, i, toks).value[0];
            g != [] && AllDigits(g) && i + |g| <= |s| && s[i..i + |g|] == g
            && (i + |g| == |s| || !IsAsciiDigit(s[i + |g|]))
  {
    var n := DigitRun(s[i..]);
    assert forall j :: 0 <= j < n ==> s[i..i + n][j] == s[i..][j];
  }
}
