/** The JavaScript string built-ins that the site's logic relies on, over Dafny strings:
    `startsWith`, `endsWith`, `includes`, the relational `<` and (for ASCII) `toLowerCase`. */
module JsString {

  /** `s.startsWith(p)` */
  predicate StartsWith(s: string, p: string) {
    |p| <= |s| && s[..|p|] == p
  }

  /** `s.endsWith(p)` */
  predicate EndsWith(s: string, p: string) {
    |p| <= |s| && s[|s| - |p|..] == p
  }

  /** A text ends with `p` exactly when it is some text followed by `p`. */
  lemma EndsWithAppended(s: string, p: string)
    ensures EndsWith(s + p, p)
    ensures EndsWith(s, p) ==> s == s[..|s| - |p|] + p
  {
    assert (s + p)[|s|..] == p;
  }

  /** `s.includes(t)`: `t` occurs in `s` at some position. */
  predicate Includes(s: string, t: string) {
    exists i :: 0 <= i <= |s| && StartsWith(s[i..], t)
  }

  /** An occurrence at a known position is an inclusion. */
  lemma IncludesAt(s: string, t: string, i: nat)
    requires i <= |s| && StartsWith(s[i..], t)
    ensures Includes(s, t)
  {
  }

  /** Inclusion is transitive: a string inside an infix of `s` is inside `s`. */
  lemma IncludesTransitive(s: string, t: string, u: string)
    requires Includes(s, t) && Includes(t, u)
    ensures Includes(s, u)
  {
    var i :| 0 <= i <= |s| && StartsWith(s[i..], t);
    var j :| 0 <= j <= |t| && StartsWith(t[j..], u);
    assert |u| <= |t| - j && j <= |t| <= |s| - i;
    forall k | 0 <= k < |u| ensures s[i + j..][k] == u[k] {
      assert s[i..][..|t|][j + k] == t[j + k];
      assert t[j..][..|u|][k] == u[k];
    }
    assert s[i + j..][..|u|] == u;
    IncludesAt(s, u, i + j);
  }

  /** Text added after `a` keeps every inclusion in `a`. */
  lemma IncludesInPrefix(a: string, b: string, t: string)
    requires Includes(a, t)
    ensures Includes(a + b, t)
  {
    var i :| 0 <= i <= |a| && StartsWith(a[i..], t);
    assert (a + b)[i..][..|t|] == a[i..][..|t|];
    IncludesAt(a + b, t, i);
  }

  /** Text added before `b` keeps every inclusion in `b`. */
  lemma IncludesInSuffix(a: string, b: string, t: string)
    requires Includes(b, t)
    ensures Includes(a + b, t)
  {
    var i :| 0 <= i <= |b| && StartsWith(b[i..], t);
    assert (a + b)[|a| + i..] == b[i..];
    IncludesAt(a + b, t, |a| + i);
  }

  /** When `b` starts with a character that `t` lacks, no occurrence of `t` in `a + b`
      straddles the seam, so `t` occurs in `a + b` only if it occurs in `a` or in `b`. */
  lemma NotIncludesConcat(a: string, b: string, t: string)
    requires |b| > 0 && b[0] !in t && !Includes(a, t) && !Includes(b, t)
    ensures !Includes(a + b, t)
  {
    var s := a + b;
    forall i | 0 <= i <= |s| ensures !StartsWith(s[i..], t) {
      if |t| <= |s| - i {
        if i + |t| <= |a| {
          assert s[i..][..|t|] == a[i..][..|t|];
          assert !StartsWith(a[i..], t);
        } else if i >= |a| {
          assert s[i..] == b[i - |a|..];
          assert !StartsWith(b[i - |a|..], t);
        } else {
          assert s[i..][..|t|][|a| - i] == b[0];
          assert t[|a| - i] in t;
        }
      }
    }
  }

  /** Every slice of `s` is included in `s`. */
  lemma SliceIncluded(s: string, lo: nat, hi: nat)
    requires lo <= hi <= |s|
    ensures Includes(s, s[lo..hi])
  {
    assert s[lo..][..hi - lo] == s[lo..hi];
    IncludesAt(s, s[lo..hi], lo);
  }

  /** `a < b` on strings: the first differing character decides, and a proper prefix
      comes first. */
  predicate LexLess(a: string, b: string)
    decreases |a|
  {
    if |a| == 0 then |b| > 0
    else if |b| == 0 then false
    else if a[0] != b[0] then a[0] < b[0]
    else LexLess(a[1..], b[1..])
  }

  lemma {:induction false} LexLessIrreflexive(a: string)
    ensures !LexLess(a, a)
    decreases |a|
  {
    if |a| > 0 {
      LexLessIrreflexive(a[1..]);
    }
  }

  lemma {:induction false} LexLessTransitive(a: string, b: string, c: string)
    requires LexLess(a, b) && LexLess(b, c)
    ensures LexLess(a, c)
    decreases |a|
  {
    if |a| > 0 && |b| > 0 && |c| > 0 && a[0] == b[0] && b[0] == c[0] {
      LexLessTransitive(a[1..], b[1..], c[1..]);
    }
  }

  /** `<` never holds in both directions. */
  lemma LexLessAsymmetric(a: string, b: string)
    requires LexLess(a, b)
    ensures !LexLess(b, a)
  {
    if LexLess(b, a) {
      LexLessTransitive(a, b, a);
      LexLessIrreflexive(a);
    }
  }

  /** Two different strings are always ordered one way or the other. */
  lemma {:induction false} LexLessTotal(a: string, b: string)
    requires a != b
    ensures LexLess(a, b) || LexLess(b, a)
    decreases |a|
  {
    if |a| > 0 && |b| > 0 && a[0] == b[0] {
      assert a == [a[0]] + a[1..] && b == [b[0]] + b[1..];
      LexLessTotal(a[1..], b[1..]);
    }
  }

  /** `toLowerCase` on one character, for the ASCII letters. */
  function LowerChar(c: char): (d: char)
    ensures 'A' <= c <= 'Z' ==> d as int == c as int + 32 && 'a' <= d <= 'z'
    ensures !('A' <= c <= 'Z') ==> d == c
  {
    if 'A' <= c <= 'Z' then (c as int - 'A' as int + 'a' as int) as char else c
  }

  /** `s.toLowerCase()`, restricted to ASCII case mapping. */
  function ToLower(s: string): (r: string)
    ensures |r| == |s|
    ensures forall i :: 0 <= i < |s| ==> r[i] == LowerChar(s[i])
  {
    seq(|s|, i requires 0 <= i < |s| => LowerChar(s[i]))
  }
}
