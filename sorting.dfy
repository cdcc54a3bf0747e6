/** Python's `list.sort` / `sorted`: a stable sort under a key comparison. The
    comparison is given as a "not greater than" relation on the elements; a
    `reverse=True` sort is the same stable sort under the flipped relation. */
module Sorting {

  /** `le` is total and transitive: what Python needs from the keys it compares. */
  ghost predicate TotalPreorder<T(!new)>(le: (T, T) -> bool) {
    (forall a, b :: le(a, b) || le(b, a)) &&
    (forall a, b, c :: le(a, b) && le(b, c) ==> le(a, c))
  }

  predicate SortedBy<T>(s: seq<T>, le: (T, T) -> bool) {
    forall i, j :: 0 <= i < j < |s| ==> le(s[i], s[j])
  }

  /** The relation of a `reverse=True` sort. */
  function Flip<T>(le: (T, T) -> bool): (T, T) -> bool {
    (a, b) => le(b, a)
  }

  lemma FlipTotalPreorder<T(!new)>(le: (T, T) -> bool)
    requires TotalPreorder(le)
    ensures TotalPreorder(Flip(le))
  {
  }

  /** Places `x` after every element of the sorted `s` that is not greater than it. */
  function Insert<T>(s: seq<T>, x: T, le: (T, T) -> bool): seq<T>
  {
    if s == [] || le(s[|s| - 1], x) then s + [x]
    else Insert(s[..|s| - 1], x, le) + [s[|s| - 1]]
  }

  /** Insertion sort from the left: the stable sort. */
  function SortBy<T>(s: seq<T>, le: (T, T) -> bool): seq<T>
  {
    if s == [] then [] else Insert(SortBy(s[..|s| - 1], le), s[|s| - 1], le)
  }

  lemma {:induction false} InsertPerm<T>(s: seq<T>, x: T, le: (T, T) -> bool)
    ensures multiset(Insert(s, x, le)) == multiset(s) + multiset{x}
  {
    if s != [] && !le(s[|s| - 1], x) {
      InsertPerm(s[..|s| - 1], x, le);
      assert s == s[..|s| - 1] + [s[|s| - 1]];
    }
  }

  lemma {:induction false} InsertSorted<T(!new)>(s: seq<T>, x: T, le: (T, T) -> bool)
    requires TotalPreorder(le) && SortedBy(s, le)
    ensures SortedBy(Insert(s, x, le), le)
  {
    if s != [] && !le(s[|s| - 1], x) {
      var init, last := s[..|s| - 1], s[|s| - 1];
      InsertSorted(init, x, le);
      InsertPerm(init, x, le);
      var r := Insert(init, x, le);
      forall k | 0 <= k < |r| ensures le(r[k], last) {
        assert r[k] in multiset(init) + multiset{x};
        if r[k] != x {
          assert r[k] in init;
        }
      }
    }
  }

  /** The result is ordered and holds exactly the input's elements. */
  lemma SortBySortedPerm<T(!new)>(s: seq<T>, le: (T, T) -> bool)
    requires TotalPreorder(le)
    ensures SortedBy(SortBy(s, le), le)
    ensures multiset(SortBy(s, le)) == multiset(s)
  {
    SortByPerm(s, le);
    SortBySorted(s, le);
  }

  lemma {:induction false} SortByPerm<T>(s: seq<T>, le: (T, T) -> bool)
    ensures multiset(SortBy(s, le)) == multiset(s)
  {
    if s != [] {
      var init, last := s[..|s| - 1], s[|s| - 1];
      SortByPerm(init, le);
      InsertPerm(SortBy(init, le), last, le);
      assert s == init + [last];
    }
  }

  lemma {:induction false} SortBySorted<T(!new)>(s: seq<T>, le: (T, T) -> bool)
    requires TotalPreorder(le)
    ensures SortedBy(SortBy(s, le), le)
  {
    if s != [] {
      var init, last := s[..|s| - 1], s[|s| - 1];
      SortBySorted(init, le);
      InsertSorted(SortBy(init, le), last, le);
    }
  }

  predicate Equivalent<T>(le: (T, T) -> bool, a: T, b: T) {
    le(a, b) && le(b, a)
  }

  /** The elements of `s` that compare equal to `y`, in their order in `s`. */
  function ClassOf<T>(s: seq<T>, y: T, le: (T, T) -> bool): seq<T>
  {
    if s == [] then []
    else ClassOf(s[..|s| - 1], y, le) + (if Equivalent(le, s[|s| - 1], y) then [s[|s| - 1]] else [])
  }

  lemma {:induction false} InsertClass<T(!new)>(s: seq<T>, x: T, y: T, le: (T, T) -> bool)
    requires TotalPreorder(le)
    ensures ClassOf(Insert(s, x, le), y, le)
         == ClassOf(s, y, le) + (if Equivalent(le, x, y) then [x] else [])
  {
    if s == [] || le(s[|s| - 1], x) {
      assert (s + [x])[..|s|] == s;
    } else {
      var init, last := s[..|s| - 1], s[|s| - 1];
      InsertClass(init, x, y, le);
      var r := Insert(init, x, le);
      assert (r + [last])[..|r|] == r;
      assert !(Equivalent(le, x, y) && Equivalent(le, last, y));
    }
  }

  /** Stability: elements that compare equal keep their relative order. */
  lemma {:induction false} SortByStable<T(!new)>(s: seq<T>, y: T, le: (T, T) -> bool)
    requires TotalPreorder(le)
    ensures ClassOf(SortBy(s, le), y, le) == ClassOf(s, y, le)
  {
    if s != [] {
      SortByStable(s[..|s| - 1], y, le);
      InsertClass(SortBy(s[..|s| - 1], le), s[|s| - 1], y, le);
    }
  }
}

/** Python's built-in comparisons: `<` on numbers, characters, strings and lists,
    and the "not greater than" relation a `key=` sort compares by. */
module PyCompare {
  import opened Sorting

  ghost predicate StrictTotalOrder<T(!new)>(lt: (T, T) -> bool) {
    (forall x :: !lt(x, x)) &&
    (forall x, y, z :: lt(x, y) && lt(y, z) ==> lt(x, z)) &&
    (forall x, y :: x != y ==> lt(x, y) || lt(y, x))
  }

  /** `<` on lists and strings: the first differing position decides; a proper
      prefix is smaller. */
  function LexLt<T(==)>(a: seq<T>, b: seq<T>, lt: (T, T) -> bool): bool
    decreases |a|
  {
    if a == [] then b != []
    else if b == [] then false
    else if a[0] != b[0] then lt(a[0], b[0])
    else LexLt(a[1..], b[1..], lt)
  }

  lemma {:induction false} LexIrreflexive<T(!new)>(a: seq<T>, lt: (T, T) -> bool)
    requires StrictTotalOrder(lt)
    ensures !LexLt(a, a, lt)
    decreases |a|
  {
    if a != [] { LexIrreflexive(a[1..], lt); }
  }

  lemma {:induction false} LexTransitive<T(!new)>(a: seq<T>, b: seq<T>, c: seq<T>, lt: (T, T) -> bool)
    requires StrictTotalOrder(lt)
    requires LexLt(a, b, lt) && LexLt(b, c, lt)
    ensures LexLt(a, c, lt)
    decreases |a|
  {
    if a != [] && a[0] == b[0] && b[0] == c[0] {
      LexTransitive(a[1..], b[1..], c[1..], lt);
    }
  }

  lemma {:induction false} LexTotal<T(!new)>(a: seq<T>, b: seq<T>, lt: (T, T) -> bool)
    requires StrictTotalOrder(lt)
    requires a != b
    ensures LexLt(a, b, lt) || LexLt(b, a, lt)
    decreases |a|
  {
    if a != [] && b != [] && a[0] == b[0] {
      assert a == [a[0]] + a[1..] && b == [b[0]] + b[1..];
      LexTotal(a[1..], b[1..], lt);
    }
  }

  /** Lexicographic extension of a strict total order is a strict total order. */
  lemma LexStrictTotalOrder<T(!new)>(lt: (T, T) -> bool)
    requires StrictTotalOrder(lt)
    ensures StrictTotalOrder((a: seq<T>, b: seq<T>) => LexLt(a, b, lt))
  {
    forall a: seq<T> ensures !LexLt(a, a, lt) {
      LexIrreflexive(a, lt);
    }
    forall a: seq<T>, b: seq<T>, c: seq<T> | LexLt(a, b, lt) && LexLt(b, c, lt)
      ensures LexLt(a, c, lt)
    {
      LexTransitive(a, b, c, lt);
    }
    forall a: seq<T>, b: seq<T> | a != b ensures LexLt(a, b, lt) || LexLt(b, a, lt) {
      LexTotal(a, b, lt);
    }
  }

  /** The relation `sort(key=key)` orders by: `x` may precede `y` unless
      `key(y) < key(x)`. */
  function ByKey<T, K>(key: T -> K, lt: (K, K) -> bool): (T, T) -> bool {
    (x, y) => !lt(key(y), key(x))
  }

  lemma ByKeyTotalPreorder<T(!new), K(!new)>(key: T -> K, lt: (K, K) -> bool)
    requires StrictTotalOrder(lt)
    ensures TotalPreorder(ByKey(key, lt))
  {
  }

  function CharLt(a: char, b: char): bool { a < b }
  function IntLt(a: int, b: int): bool { a < b }

  /** `<` on `str`: by code point. */
  function StrLt(a: string, b: string): bool {
    LexLt(a, b, CharLt)
  }

  lemma StrLtStrictTotalOrder()
    ensures StrictTotalOrder(StrLt)
  {
    assert StrictTotalOrder(CharLt);
    forall a: string ensures !StrLt(a, a) {
      LexIrreflexive(a, CharLt);
    }
    forall a: string, b: string, c: string | StrLt(a, b) && StrLt(b, c) ensures StrLt(a, c) {
      LexTransitive(a, b, c, CharLt);
    }
    forall a: string, b: string | a != b ensures StrLt(a, b) || StrLt(b, a) {
      LexTotal(a, b, CharLt);
    }
  }
}
