/** Shared vocabulary of the model: optional values, bytes, ASCII text helpers,
    '/'-separated paths with their pathlib-style parts, Python's `list(set(..))`
    ordering as an oracle, and the file system as a value. */
module Common {

  datatype Option<T> = None | Some(value: T)

  type byte = x: int | 0 <= x < 256

  /** A path is a '/'-separated string; no normalisation is performed. */
  type Path = string

  /** Opaque payloads handed to and returned by image and PDF libraries. */
  datatype Image = Image(id: int)
  datatype Page = Page(id: int)

  // ---------------------------------------------------------------- sequences

  predicate NoDup<T(==)>(s: seq<T>) {
    forall i, j :: 0 <= i < j < |s| ==> s[i] != s[j]
  }

  function Elems<T>(s: seq<T>): set<T> {
    set x | x in s
  }

  /** Number of occurrences of `x` in `s`, peeled from the end so that a loop over
      `s[..i]` extends it one element at a time. */
  function Count<T(==)>(s: seq<T>, x: T): nat {
    if s == [] then 0 else Count(s[..|s| - 1], x) + (if s[|s| - 1] == x then 1 else 0)
  }

  lemma NoDupSnoc<T>(s: seq<T>, x: T)
    requires NoDup(s) && x !in s
    ensures NoDup(s + [x])
  {
    var t := s + [x];
    forall i, j | 0 <= i < j < |t| ensures t[i] != t[j] {
      assert t[i] == s[i];
      if j < |s| { assert t[j] == s[j]; }
    }
  }

  lemma ElemsSnoc<T>(s: seq<T>, x: T)
    ensures Elems(s + [x]) == Elems(s) + {x}
  {
  }

  /** A non-empty list is its front followed by its last element. */
  lemma Snoc<T>(s: seq<T>)
    requires |s| > 0
    ensures s == s[..|s| - 1] + [s[|s| - 1]]
    ensures forall x :: x in s <==> x in s[..|s| - 1] || x == s[|s| - 1]
  {
  }

  lemma ElemsPrefix<T>(s: seq<T>, k: nat)
    requires k < |s|
    ensures Elems(s[..k + 1]) == Elems(s[..k]) + {s[k]}
  {
    assert s[..k + 1] == s[..k] + [s[k]];
  }

  /** A list holds no duplicate exactly when it has as many distinct elements as
      entries. */
  lemma {:induction false} ElemsCard<T>(s: seq<T>)
    ensures |Elems(s)| <= |s|
    ensures NoDup(s) <==> |Elems(s)| == |s|
  {
    if s != [] {
      var init, x := s[..|s| - 1], s[|s| - 1];
      ElemsCard(init);
      assert s == init + [x];
      ElemsSnoc(init, x);
      if x in init {
        assert Elems(s) == Elems(init);
        var i :| 0 <= i < |init| && init[i] == x;
        assert s[i] == s[|s| - 1];
      } else {
        assert |Elems(s)| == |Elems(init)| + 1;
        if NoDup(init) { NoDupSnoc(init, x); }
        if NoDup(s) {
          forall i, j | 0 <= i < j < |init| ensures init[i] != init[j] {
            assert init[i] == s[i] && init[j] == s[j];
          }
        }
      }
    }
  }

  /** Rearranging a list keeps its elements and whether it repeats one. */
  lemma PermutationKeepsElems<T>(a: seq<T>, b: seq<T>)
    requires multiset(a) == multiset(b)
    ensures Elems(a) == Elems(b)
    ensures NoDup(a) <==> NoDup(b)
  {
    assert forall x :: x in a <==> x in multiset(a);
    assert forall x :: x in b <==> x in multiset(b);
    assert Elems(a) == Elems(b);
    ElemsCard(a);
    ElemsCard(b);
    assert |a| == |multiset(a)| == |multiset(b)| == |b|;
  }

  lemma {:induction false} CountPositive<T>(s: seq<T>, x: T)
    ensures Count(s, x) > 0 <==> x in s
  {
    if s != [] {
      CountPositive(s[..|s| - 1], x);
      assert s == s[..|s| - 1] + [s[|s| - 1]];
    }
  }

  /** A subset is no larger than its superset. */
  lemma {:induction false} SubsetCard<T>(a: set<T>, b: set<T>)
    requires a <= b
    ensures |a| <= |b|
    decreases a
  {
    if a != {} {
      var x :| x in a;
      SubsetCard(a - {x}, b - {x});
    }
  }

  /** Some listing of a finite set, one element at a time. */
  method SetToSeq<T>(s: set<T>) returns (r: seq<T>)
    ensures Elems(r) == s
  {
    r := [];
    var rest := s;
    while rest != {}
      invariant Elems(r) + rest == s
      decreases |rest|
    {
      var x :| x in rest;
      ElemsSnoc(r, x);
      r := r + [x];
      rest := rest - {x};
    }
  }

  /** `order` behaves like Python's `list(set(xs))`: no element twice, exactly the
      elements of the input, in an order the model does not fix. */
  ghost predicate IsSetOrder(order: seq<Path> -> seq<Path>) {
    forall s :: NoDup(order(s)) && Elems(order(s)) == Elems(s)
  }

  /** `p` is a permutation of the indices 0..n-1: the order in which a thread pool
      hands back the results of n submitted tasks. */
  predicate IsIndexOrder(p: seq<nat>, n: nat) {
    |p| == n && NoDup(p) && (forall k :: 0 <= k < |p| ==> p[k] < n) && (forall i :: 0 <= i < n ==> i in p)
  }

  ghost predicate IsCompletionOrder(order: nat -> seq<nat>) {
    forall n :: IsIndexOrder(order(n), n)
  }

  /** 0, 1, ..., n-1: the order of a plain `for` loop. */
  function Indices(n: nat): (r: seq<nat>)
    ensures |r| == n && forall k :: 0 <= k < n ==> r[k] == k
  {
    if n == 0 then [] else Indices(n - 1) + [n - 1]
  }

  lemma IndicesOrder(n: nat)
    ensures IsIndexOrder(Indices(n), n)
  {
    var r := Indices(n);
    forall i | 0 <= i < n ensures i in r {
      assert r[i] == i;
    }
  }

  // --------------------------------------------------------------------- text

  predicate IsAsciiUpper(c: char) { 'A' <= c <= 'Z' }
  predicate IsAsciiDigit(c: char) { '0' <= c <= '9' }
  predicate IsAsciiAlpha(c: char) { 'A' <= c <= 'Z' || 'a' <= c <= 'z' }
  /** Python's `\w` restricted to ASCII. */
  predicate IsWordChar(c: char) { IsAsciiAlpha(c) || IsAsciiDigit(c) || c == '_' }
  /** Python's `\s` restricted to ASCII. */
  predicate IsSpace(c: char) { c == ' ' || c == '\t' || c == '\n' || c == '\r' || c == '\U{000B}' || c == '\U{000C}' }

  function LowerChar(c: char): (r: char)
    ensures !IsAsciiUpper(r)
    ensures IsAsciiUpper(c) ==> r as int == c as int + 32
    ensures !IsAsciiUpper(c) ==> r == c
  {
    if IsAsciiUpper(c) then (c as int + 32) as char else c
  }

  /** `str.lower()` on the ASCII letters; every other character is kept. */
  function Lower(s: string): (r: string)
    ensures |r| == |s|
    ensures forall i :: 0 <= i < |s| ==> r[i] == LowerChar(s[i])
  {
    seq(|s|, i requires 0 <= i < |s| => LowerChar(s[i]))
  }

  lemma LowerAppend(a: string, b: string)
    ensures Lower(a + b) == Lower(a) + Lower(b)
  {
  }

  lemma LowerSlice(s: string, i: nat, j: nat)
    requires i <= j <= |s|
    ensures Lower(s[i..j]) == Lower(s)[i..j]
  {
  }

  /** `str.strip()` on ASCII whitespace. */
  function Strip(s: string): string
    decreases |s|
  {
    if s == [] then []
    else if IsSpace(s[0]) then Strip(s[1..])
    else if IsSpace(s[|s| - 1]) then Strip(s[..|s| - 1])
    else s
  }

  /** The stripped text neither starts nor ends with whitespace, and is empty
      exactly when the text is all whitespace. */
  lemma {:induction false} StripEnds(s: string)
    ensures Strip(s) != [] ==> !IsSpace(Strip(s)[0]) && !IsSpace(Strip(s)[|Strip(s)| - 1])
    ensures Strip(s) == [] <==> forall i :: 0 <= i < |s| ==> IsSpace(s[i])
    decreases |s|
  {
    if s != [] {
      if IsSpace(s[0]) {
        StripEnds(s[1..]);
        assert forall i :: 1 <= i < |s| ==> s[i] == s[1..][i - 1];
      } else if IsSpace(s[|s| - 1]) {
        StripEnds(s[..|s| - 1]);
        assert !IsSpace(s[..|s| - 1][0]);
      }
    }
  }

  /** Stripping only removes characters: it is a slice of its input. */
  lemma {:induction false} StripIsSlice(s: string) returns (i: nat)
    ensures i + |Strip(s)| <= |s| && s[i..i + |Strip(s)|] == Strip(s)
    decreases |s|
  {
    if s == [] {
      i := 0;
    } else if IsSpace(s[0]) {
      var r := Strip(s[1..]);
      var k := StripIsSlice(s[1..]);
      assert Strip(s) == r;
      assert s[1..][k..k + |r|] == s[k + 1..k + 1 + |r|];
      i := k + 1;
    } else if IsSpace(s[|s| - 1]) {
      var r := Strip(s[..|s| - 1]);
      i := StripIsSlice(s[..|s| - 1]);
      assert Strip(s) == r;
      assert s[..|s| - 1][i..i + |r|] == s[i..i + |r|];
    } else {
      i := 0;
    }
  }

  predicate IsPrefix<T(==)>(p: seq<T>, s: seq<T>) {
    |p| <= |s| && s[..|p|] == p
  }

  /** Python's `sub in s`, on strings and on bytes. */
  predicate Contains<T(==)>(s: seq<T>, sub: seq<T>)
    decreases |s|
  {
    IsPrefix(sub, s) || (|s| > 0 && Contains(s[1..], sub))
  }

  lemma {:induction false} ContainsAt<T>(s: seq<T>, sub: seq<T>, i: nat)
    requires i + |sub| <= |s| && s[i..i + |sub|] == sub
    ensures Contains(s, sub)
    decreases i
  {
    if i > 0 {
      assert s[1..][i - 1..i - 1 + |sub|] == s[i..i + |sub|];
      ContainsAt(s[1..], sub, i - 1);
    }
  }

  lemma {:induction false} ContainsWitness<T>(s: seq<T>, sub: seq<T>) returns (i: nat)
    requires Contains(s, sub)
    ensures i + |sub| <= |s| && s[i..i + |sub|] == sub
    decreases |s|
  {
    if IsPrefix(sub, s) {
      i := 0;
    } else {
      var k := ContainsWitness(s[1..], sub);
      assert s[1..][k..k + |sub|] == s[k + 1..k + 1 + |sub|];
      i := k + 1;
    }
  }

  lemma ContainsEmpty<T>(s: seq<T>)
    ensures Contains(s, [])
  {
    assert IsPrefix([], s);
  }

  lemma ContainsSelf<T>(s: seq<T>)
    ensures Contains(s, s)
  {
    assert IsPrefix(s, s);
  }

  function DigitChar(d: nat): (c: char)
    requires d < 10
    ensures IsAsciiDigit(c) && c as int - '0' as int == d
  {
    (d + '0' as int) as char
  }

  /** `str(n)` for a natural number. */
  function NatToString(n: nat): (s: string)
    ensures |s| > 0 && forall i :: 0 <= i < |s| ==> IsAsciiDigit(s[i])
    decreases n
  {
    if n < 10 then [DigitChar(n)] else NatToString(n / 10) + [DigitChar(n % 10)]
  }

  /** `str(i)` for any integer. */
  function IntToString(i: int): (s: string)
    ensures |s| > 0
  {
    if i < 0 then "-" + NatToString(-i) else NatToString(i)
  }

  // -------------------------------------------------------------------- paths

  /** Index of the last '/' in `p`, or -1. */
  function LastIndexOf(p: string, c: char): (k: int)
    ensures -1 <= k < |p|
    ensures k >= 0 ==> p[k] == c
    ensures forall j :: k < j < |p| ==> p[j] != c
  {
    if |p| == 0 then -1 else if p[|p| - 1] == c then |p| - 1 else LastIndexOf(p[..|p| - 1], c)
  }

  /** `Path(p).name`: the text after the last '/'. */
  function Name(p: Path): (n: string)
    ensures '/' !in n
    ensures |n| <= |p| && p[|p| - |n|..] == n
  {
    p[LastIndexOf(p, '/') + 1..]
  }

  /** `Path(p).parent`: the text before the last '/', "/" for a top-level entry of the
      root, "." for a bare name. */
  function Parent(p: Path): Path {
    var k := LastIndexOf(p, '/');
    if k < 0 then "." else if k == 0 then "/" else p[..k]
  }

  /** `Path(dir) / name`. */
  function Join(dir: Path, name: string): (p: Path)
    ensures |p| > |dir|
  {
    dir + "/" + name
  }

  lemma JoinParts(dir: Path, name: string)
    requires '/' !in name && |dir| > 0
    ensures Name(Join(dir, name)) == name
    ensures Parent(Join(dir, name)) == dir
  {
    var p := Join(dir, name);
    var k := LastIndexOf(p, '/');
    assert p[|dir|] == '/';
    forall j | |dir| < j < |p| ensures p[j] != '/' {
      assert p[j] == name[j - |dir| - 1];
    }
    assert p[k + 1..] == name;
    assert p[..k] == dir;
  }

  /** `PurePath.suffix` of a final component: from the last '.', provided that dot is
      neither the first nor the last character. */
  function Suffix(name: string): (s: string)
    ensures s == [] || (s[0] == '.' && |s| >= 2)
  {
    var i := LastIndexOf(name, '.');
    if 0 < i < |name| - 1 then name[i..] else ""
  }

  /** `PurePath.stem` of a final component: the name without its suffix. */
  function Stem(name: string): string {
    var i := LastIndexOf(name, '.');
    if 0 < i < |name| - 1 then name[..i] else name
  }

  lemma StemSuffix(name: string)
    ensures Stem(name) + Suffix(name) == name
  {
  }

  /** A suffix is a dot followed by at least one character and no other dot. */
  lemma SuffixShape(name: string)
    requires Suffix(name) != ""
    ensures |Suffix(name)| >= 2 && Suffix(name) == "." + Suffix(name)[1..] && '.' !in Suffix(name)[1..]
  {
    var i := LastIndexOf(name, '.');
    var ext := Suffix(name)[1..];
    assert forall j :: 0 <= j < |ext| ==> ext[j] == name[i + 1 + j];
  }

  lemma SuffixOfDotted(stem: string, ext: string)
    requires |stem| > 0 && |ext| > 0 && '.' !in ext
    ensures Suffix(stem + "." + ext) == "." + ext
    ensures Stem(stem + "." + ext) == stem
  {
    var n := stem + "." + ext;
    var i := LastIndexOf(n, '.');
    assert n[|stem|] == '.';
    forall j | |stem| < j < |n| ensures n[j] != '.' {
      assert n[j] == ext[j - |stem| - 1];
    }
    assert n[i..] == "." + ext;
    assert n[..i] == stem;
  }

  function PathSuffix(p: Path): string { Suffix(Name(p)) }
  function PathStem(p: Path): string { Stem(Name(p)) }

  /** `q` lies strictly below directory `dir`. */
  predicate Under(q: Path, dir: Path) {
    IsPrefix(dir + "/", q)
  }

  // -------------------------------------------------------------- file system

  /** Regular files with their bytes, and directories. */
  datatype FileSystem = FileSystem(files: map<Path, seq<byte>>, dirs: set<Path>)

  /** `os.path.exists` / `Path.exists`. */
  predicate Exists(fs: FileSystem, p: Path) {
    p in fs.files || p in fs.dirs
  }

  /** `os.path.getsize` of a regular file. */
  function FileSize(fs: FileSystem, p: Path): nat
    requires p in fs.files
  {
    |fs.files[p]|
  }

  /** Opening `p` for writing succeeds: its directory exists and `p` is not itself a
      directory. */
  predicate CanWrite(fs: FileSystem, p: Path) {
    Parent(p) in fs.dirs && p !in fs.dirs
  }

  function WriteFile(fs: FileSystem, p: Path, data: seq<byte>): (r: FileSystem)
    ensures r.dirs == fs.dirs && p in r.files && r.files[p] == data
    ensures forall q :: q != p ==> (q in r.files <==> q in fs.files)
  {
    fs.(files := fs.files[p := data])
  }

  /** Nothing exists below `d`. */
  predicate DirIsEmpty(fs: FileSystem, d: Path) {
    (forall q :: q in fs.files ==> !Under(q, d)) && (forall q :: q in fs.dirs ==> !Under(q, d))
  }

  /** `Path(d).mkdir(exist_ok=True)` without `parents`: the parent must exist and no
      regular file may sit at `d`. */
  function MakeDir(fs: FileSystem, d: Path): Option<FileSystem> {
    if d in fs.files || Parent(d) !in fs.dirs then None
    else Some(fs.(dirs := fs.dirs + {d}))
  }

  /** `Path(d).mkdir(parents=True, exist_ok=True)`: missing ancestors are created
      too, and a regular file anywhere on the way makes it fail. The root and the
      current directory always exist. */
  function MakeDirs(fs: FileSystem, d: Path): (r: Option<FileSystem>)
    ensures r.Some? ==> r.value.files == fs.files && fs.dirs <= r.value.dirs && d in r.value.dirs
    ensures d in fs.files ==> r.None?
    ensures d in fs.dirs && d !in fs.files ==> r == Some(fs)
    decreases |d|
  {
    if d in fs.files then None
    else if d in fs.dirs then Some(fs)
    else
      var p := Parent(d);
      if |p| >= |d| then Some(fs.(dirs := fs.dirs + {d}))
      else match MakeDirs(fs, p)
        case None => None
        case Some(fs1) => Some(fs1.(dirs := fs1.dirs + {d}))
  }
}
