/** The JavaScript array built-ins the story service chains together: `sort` with a
    comparator over a string key, de-duplication through a `Set`, and `slice(0, end)`. */
module JsArray {
  import opened JsString

  /** Ordered by `key`: no later element has a key strictly before an earlier one. */
  ghost predicate SortedBy<T>(s: seq<T>, key: T -> string) {
    forall i, j :: 0 <= i < j < |s| ==> !LexLess(key(s[j]), key(s[i]))
  }

  /** No element occurs twice. */
  ghost predicate Distinct<T>(s: seq<T>) {
    forall i, j :: 0 <= i < j < |s| ==> s[i] != s[j]
  }

  /** One insertion step of `sort((a, b) => key(a) < key(b) ? -1 : 1)`: `x` goes in front
      of the first element whose key it is strictly below. The comparator never answers
      0, so elements with equal keys end up in an order the language leaves open; this
      model fixes one such order and promises nothing about it. */
  function Insert<T>(x: T, s: seq<T>, key: T -> string): (r: seq<T>)
    ensures multiset(r) == multiset(s) + multiset{x}
  {
    if s == [] then [x]
    else if LexLess(key(x), key(s[0])) then [x] + s
    else
      assert s == [s[0]] + s[1..];
      [s[0]] + Insert(x, s[1..], key)
  }

  /** Every element of an insertion result is the inserted one or came from `s`. */
  lemma InsertMembers<T>(x: T, s: seq<T>, key: T -> string, y: T)
    requires y in Insert(x, s, key)
    ensures y == x || y in s
  {
    assert y in multiset(Insert(x, s, key));
  }

  /** Inserting into an ordered sequence keeps it ordered. */
  lemma {:induction false} InsertSorted<T>(x: T, s: seq<T>, key: T -> string)
    requires SortedBy(s, key)
    ensures SortedBy(Insert(x, s, key), key)
  {
    if s == [] {
    } else if LexLess(key(x), key(s[0])) {
      forall j | 0 <= j < |s| ensures !LexLess(key(s[j]), key(x)) {
        if LexLess(key(s[j]), key(x)) {
          LexLessTransitive(key(s[j]), key(x), key(s[0]));
          if j == 0 { LexLessIrreflexive(key(s[0])); }
        }
      }
    } else {
      var rest := Insert(x, s[1..], key);
      InsertSorted(x, s[1..], key);
      forall j | 0 <= j < |rest| ensures !LexLess(key(rest[j]), key(s[0])) {
        InsertMembers(x, s[1..], key, rest[j]);
      }
    }
  }

  /** Inserting a new element into a duplicate-free sequence keeps it duplicate-free. */
  lemma {:induction false} InsertDistinct<T>(x: T, s: seq<T>, key: T -> string)
    requires x !in s && Distinct(s)
    ensures Distinct(Insert(x, s, key))
  {
    if s != [] && !LexLess(key(x), key(s[0])) {
      InsertDistinct(x, s[1..], key);
      var rest := Insert(x, s[1..], key);
      if s[0] in rest {
        InsertMembers(x, s[1..], key, s[0]);
      }
    }
  }

  /** `s.sort((a, b) => key(a) < key(b) ? -1 : 1)` on a fresh copy: a permutation of `s`
      ordered by `key`. */
  function SortBy<T>(s: seq<T>, key: T -> string): (r: seq<T>)
    ensures multiset(r) == multiset(s)
    ensures SortedBy(r, key)
  {
    if s == [] then []
    else
      var rest := SortBy(s[1..], key);
      assert s == [s[0]] + s[1..];
      InsertSorted(s[0], rest, key);
      Insert(s[0], rest, key)
  }

  /** Sorting a duplicate-free sequence leaves it duplicate-free. */
  lemma {:induction false} SortByDistinct<T>(s: seq<T>, key: T -> string)
    requires Distinct(s)
    ensures Distinct(SortBy(s, key))
  {
    if s != [] {
      var rest := SortBy(s[1..], key);
      SortByDistinct(s[1..], key);
      assert s[0] !in s[1..];
      assert s[0] !in multiset(rest);
      InsertDistinct(s[0], rest, key);
    }
  }

  /** A prefix of an ordered sequence is ordered, and nothing left outside the prefix
      comes before anything inside it. */
  lemma SortedPrefix<T>(s: seq<T>, key: T -> string, k: nat)
    requires k <= |s| && SortedBy(s, key)
    ensures SortedBy(s[..k], key)
    ensures forall x, y :: x in s[..k] && y in s && y !in s[..k] ==> !LexLess(key(y), key(x))
  {
    assert forall m :: 0 <= m < k ==> s[..k][m] == s[m];
    forall x, y | x in s[..k] && y in s && y !in s[..k] ensures !LexLess(key(y), key(x)) {
      var i :| 0 <= i < k && s[i] == x;
      var j :| 0 <= j < |s| && s[j] == y;
    }
  }

  /** The first `k` elements of an ordered permutation of `pool`: drawn from `pool`, ordered,
      and no element of `pool` left out comes before one that is kept. */
  lemma SortedPrefixOfPermutation<T>(s: seq<T>, pool: seq<T>, key: T -> string, k: nat)
    requires k <= |s| && SortedBy(s, key) && multiset(s) == multiset(pool)
    ensures |s| == |pool|
    ensures multiset(s[..k]) <= multiset(pool)
    ensures SortedBy(s[..k], key)
    ensures forall x, y :: x in s[..k] && y in pool && y !in s[..k] ==> !LexLess(key(y), key(x))
  {
    assert |s| == |multiset(s)| == |multiset(pool)| == |pool|;
    SortedPrefix(s, key, k);
    assert s == s[..k] + s[k..];
    assert multiset(s[..k]) <= multiset(s);
    forall y | y in pool ensures y in s {
      assert y in multiset(pool);
    }
  }

  /** An ordered duplicate-free sequence of strings is strictly increasing. */
  lemma StrictlyIncreasing(s: seq<string>, key: string -> string)
    requires SortedBy(s, key) && Distinct(s)
    requires forall x :: key(x) == x
    ensures forall i, j :: 0 <= i < j < |s| ==> LexLess(s[i], s[j])
  {
    forall i, j | 0 <= i < j < |s| ensures LexLess(s[i], s[j]) {
      LexLessTotal(s[i], s[j]);
      assert key(s[i]) == s[i] && key(s[j]) == s[j];
    }
  }

  /** `Array.from(new Set(s))`: the elements of `s` in order of first occurrence. */
  function Unique<T(==)>(s: seq<T>): (r: seq<T>)
    ensures forall i :: 0 <= i < |r| ==> r[i] in s
    ensures forall i :: 0 <= i < |s| ==> s[i] in r
    ensures Distinct(r)
    ensures |r| <= |s|
  {
    if s == [] then []
    else
      var init := Unique(s[..|s| - 1]);
      var last := s[|s| - 1];
      assert s == s[..|s| - 1] + [last];
      if last in init then init else init + [last]
  }

  /** The end index that `slice(0, end)` uses on an array of length `len`: a negative
      `end` counts back from the length, and the result is clamped to `0..len`. */
  function SliceEnd(len: nat, end: int): (k: nat)
    ensures k <= len
    ensures 0 <= end ==> k == if end < len then end else len
    ensures end < 0 ==> k == if len + end < 0 then 0 else len + end
  {
    if end < 0 then (if len + end < 0 then 0 else len + end)
    else if end < len then end else len
  }
}
