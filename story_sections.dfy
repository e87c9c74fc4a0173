/** `useStorySections` (`src/hooks/useStorySections.ts`): the rendered story HTML is split
    with `split(/<h2>(.*?)<\/h2>/g)` and the bodies after the first three headings become
    the story's three sections. The regular expression and `String.prototype.split` are
    modelled explicitly. */
module StorySections {
  import opened JsString
  import opened Results

  const OPEN := "<h2>"
  const CLOSE := "</h2>"

  datatype Sections = Sections(lifeBeforeIslam: string, momentOfGuidance: string, reflections: string)

  /** The characters that `.` does not match. */
  predicate IsLineTerminator(c: char) {
    c == '\n' || c == '\r' || c == '\U{2028}' || c == '\U{2029}'
  }

  /** A `<h2>` starts at position `q`. */
  predicate OpensAt(s: string, q: nat) {
    q + |OPEN| <= |s| && s[q] == '<' && s[q + 1] == 'h' && s[q + 2] == '2' && s[q + 3] == '>'
  }

  /** A `</h2>` starts at position `c`. */
  predicate ClosesAt(s: string, c: nat) {
    && c + |CLOSE| <= |s|
    && s[c] == '<' && s[c + 1] == '/' && s[c + 2] == 'h' && s[c + 3] == '2' && s[c + 4] == '>'
  }

  lemma OpensAtIsPrefix(s: string, q: nat)
    requires q <= |s|
    ensures OpensAt(s, q) <==> StartsWith(s[q..], OPEN)
  {
    if OpensAt(s, q) {
      assert s[q..][..|OPEN|] == OPEN;
    }
  }

  lemma ClosesAtIsPrefix(s: string, c: nat)
    requires c <= |s|
    ensures ClosesAt(s, c) <==> StartsWith(s[c..], CLOSE)
  {
    if ClosesAt(s, c) {
      assert s[c..][..|CLOSE|] == CLOSE;
    }
  }

  /** The lazy `(.*?)<\/h2>` started at `k`: the first `</h2>` at or after `k`, provided no
      line terminator comes before it. */
  function CloseFrom(s: string, k: nat): (r: Option<nat>)
    requires k <= |s|
    decreases |s| - k
    ensures r.Some? ==> k <= r.value && r.value + |CLOSE| <= |s| && ClosesAt(s, r.value)
  {
    if ClosesAt(s, k) then Some(k)
    else if k == |s| || IsLineTerminator(s[k]) then None
    else CloseFrom(s, k + 1)
  }

  /** The match of `(.*?)<\/h2>` is lazy and single-line: when found, it ends at the first
      `</h2>` and crosses no line terminator; when not found, a line terminator stands
      before every `</h2>`. */
  lemma {:induction false} CloseFromIsLazy(s: string, k: nat)
    requires k <= |s|
    decreases |s| - k
    ensures var r := CloseFrom(s, k);
      && (r.Some? ==> ClosesAt(s, r.value))
      && (r.Some? ==> forall j :: k <= j < r.value ==> !IsLineTerminator(s[j]) && !ClosesAt(s, j))
      && (r.None? ==> forall c :: k <= c && ClosesAt(s, c) ==> exists j :: k <= j < c && IsLineTerminator(s[j]))
  {
    if !ClosesAt(s, k) && k < |s| && !IsLineTerminator(s[k]) {
      CloseFromIsLazy(s, k + 1);
      if CloseFrom(s, k + 1).None? {
        forall c | k <= c && ClosesAt(s, c) ensures exists j :: k <= j < c && IsLineTerminator(s[j]) {
          assert c != k;
        }
      }
    }
  }

  /** The heading match that starts exactly at `q`, given by the position of its `</h2>`. */
  function HeadingAt(s: string, q: nat): (r: Option<nat>)
    requires q <= |s|
    ensures r.Some? ==> OpensAt(s, q) && q + |OPEN| <= r.value && ClosesAt(s, r.value)
    // the captured text may be empty: `<h2></h2>` matches
    ensures OpensAt(s, q) && ClosesAt(s, q + |OPEN|) ==> r == Some(q + |OPEN|)
  {
    if OpensAt(s, q) then CloseFrom(s, q + |OPEN|) else None
  }

  /** `String.prototype.split` with this expression, scanning from `q` with the piece
      under construction starting at `p`: where a heading matches, the text before it and
      the captured heading text are emitted and the scan resumes after `</h2>`. */
  function SplitFrom(s: string, p: nat, q: nat): seq<string>
    requires p <= q <= |s|
    decreases |s| - q
  {
    if q == |s| then [s[p..]]
    else match HeadingAt(s, q)
      case None => SplitFrom(s, p, q + 1)
      case Some(c) => [s[p..q], s[q + |OPEN|..c]] + SplitFrom(s, c + |CLOSE|, c + |CLOSE|)
  }

  /** `contentHtml.split(/<h2>(.*?)<\/h2>/g)`: the pieces are cut along the interleaving
      of the heading matches, found from the start of the text. */
  function Split(s: string): (pieces: seq<string>)
    ensures pieces == Pieces(s, Interleave(|s|, 0, Headings(s)))
    ensures |pieces| == 2 * |Headings(s)| + 1
  {
    SplitIsInterleave(s, 0, 0);
    SplitFrom(s, 0, 0)
  }

  /** `pieces[i] || ''` */
  function PieceOrEmpty(pieces: seq<string>, i: nat): string {
    if i < |pieces| then pieces[i] else ""
  }

  /** `useStorySections(contentHtml)`. The sections are the bodies of the first three
      headings, chosen by position alone: a section is empty when there are fewer headings
      than its position, text before the first heading and bodies from the fourth heading
      on are dropped, and the heading texts are never looked at. */
  function UseStorySections(contentHtml: string): (sections: Sections)
    ensures var hs := Headings(contentHtml);
      sections == Sections(
        BodyOrEmpty(contentHtml, hs, 0), BodyOrEmpty(contentHtml, hs, 1), BodyOrEmpty(contentHtml, hs, 2))
  {
    var pieces := Split(contentHtml);
    var hs := Headings(contentHtml);
    assert forall i :: 0 <= i < 3 && i < |hs| ==> pieces[2 * i + 2] == BodyOrEmpty(contentHtml, hs, i) by {
      forall i | 0 <= i < 3 && i < |hs| ensures pieces[2 * i + 2] == BodyOrEmpty(contentHtml, hs, i) {
        InterleaveAt(|contentHtml|, 0, hs, i);
      }
    }
    Sections(PieceOrEmpty(pieces, 2), PieceOrEmpty(pieces, 4), PieceOrEmpty(pieces, 6))
  }

  // ---- A reference description: the list of heading matches and the spans between them

  /** A heading match: `<h2>` at `start`, its `</h2>` at `close`. */
  datatype Heading = Heading(start: nat, close: nat)

  /** The stretch of the content from `lo` up to, not including, `hi`. */
  datatype Span = Span(lo: nat, hi: nat)

  /** Headings that lie inside a text of length `n`, at or after `p`, in order and without
      overlap. */
  ghost predicate WellPlaced(n: nat, p: nat, hs: seq<Heading>)
    decreases |hs|
  {
    hs == [] ||
    (&& p <= hs[0].start
     && hs[0].start + |OPEN| <= hs[0].close
     && hs[0].close + |CLOSE| <= n
     && WellPlaced(n, hs[0].close + |CLOSE|, hs[1..]))
  }

  /** Where heading `i` of a well-placed list lies. */
  lemma {:induction false} WellPlacedAt(n: nat, p: nat, hs: seq<Heading>, i: nat)
    requires WellPlaced(n, p, hs) && i < |hs|
    ensures p <= hs[i].start && hs[i].start + |OPEN| <= hs[i].close && hs[i].close + |CLOSE| <= n
    ensures i + 1 < |hs| ==> hs[i].close + |CLOSE| <= hs[i + 1].start
    decreases i
  {
    if i > 0 {
      WellPlacedAt(n, hs[0].close + |CLOSE|, hs[1..], i - 1);
      assert hs[1..][i - 1] == hs[i];
      if i + 1 < |hs| { assert hs[1..][i] == hs[i + 1]; }
    }
  }

  /** Any earlier heading ends before any later one starts. */
  lemma {:induction false} WellPlacedOrdered(n: nat, p: nat, hs: seq<Heading>, i: nat, j: nat)
    requires WellPlaced(n, p, hs) && i < j < |hs|
    ensures hs[i].close + |CLOSE| <= hs[j].start
    decreases j - i
  {
    WellPlacedAt(n, p, hs, i);
    if i + 1 < j {
      WellPlacedOrdered(n, p, hs, i + 1, j);
      WellPlacedAt(n, p, hs, i + 1);
    }
  }

  /** The successive non-overlapping heading matches found by scanning from `q`. */
  function HeadingsFrom(s: string, q: nat): (hs: seq<Heading>)
    requires q <= |s|
    decreases |s| - q
    ensures WellPlaced(|s|, q, hs)
  {
    if q == |s| then []
    else match HeadingAt(s, q)
      case None => HeadingsFrom(s, q + 1)
      case Some(c) => [Heading(q, c)] + HeadingsFrom(s, c + |CLOSE|)
  }

  function Headings(s: string): seq<Heading> {
    HeadingsFrom(s, 0)
  }

  /** The scan misses no match: every position where the expression matches, and that
      lies inside no heading found before it, is the start of a listed heading. */
  lemma {:induction false} HeadingsComplete(s: string, q: nat, r: nat)
    requires q <= r <= |s| && HeadingAt(s, r).Some?
    requires forall h :: h in HeadingsFrom(s, q) ==> !(h.start < r < h.close + |CLOSE|)
    ensures exists h :: h in HeadingsFrom(s, q) && h.start == r
    decreases |s| - q
  {
    var hs := HeadingsFrom(s, q);
    assert q < |s|;
    match HeadingAt(s, q)
    case None =>
      assert q < r;
      HeadingsComplete(s, q + 1, r);
    case Some(c) =>
      var rest := HeadingsFrom(s, c + |CLOSE|);
      assert hs == [Heading(q, c)] + rest;
      assert hs[0] in hs;
      if r != q {
        assert c + |CLOSE| <= r;
        forall h | h in rest ensures h in hs { }
        HeadingsComplete(s, c + |CLOSE|, r);
      } else {
        assert hs[0].start == r;
      }
  }

  /** Every heading found is a match of the expression at its position. */
  lemma {:induction false} HeadingsAreMatches(s: string, q: nat, i: nat)
    requires q <= |s| && i < |HeadingsFrom(s, q)|
    ensures HeadingsFrom(s, q)[i].start <= |s|
    ensures HeadingAt(s, HeadingsFrom(s, q)[i].start) == Some(HeadingsFrom(s, q)[i].close)
    decreases |s| - q
  {
    if HeadingAt(s, q).None? {
      HeadingsAreMatches(s, q + 1, i);
    } else {
      var c := HeadingAt(s, q).value;
      var rest := HeadingsFrom(s, c + |CLOSE|);
      assert HeadingsFrom(s, q) == [Heading(q, c)] + rest;
      if i > 0 {
        assert HeadingsFrom(s, q)[i] == rest[i - 1];
        HeadingsAreMatches(s, c + |CLOSE|, i - 1);
      }
    }
  }

  /** The text of a span, or nothing when the span does not lie inside `s`. */
  function Cut(s: string, sp: Span): string {
    if sp.lo <= sp.hi <= |s| then s[sp.lo..sp.hi] else ""
  }

  /** The texts of a list of spans. */
  function Pieces(s: string, spans: seq<Span>): (pieces: seq<string>)
    ensures |pieces| == |spans|
  {
    seq(|spans|, k requires 0 <= k < |spans| => Cut(s, spans[k]))
  }

  lemma PiecesCons(s: string, a: Span, b: Span, spans: seq<Span>)
    ensures Pieces(s, [a, b] + spans) == [Cut(s, a), Cut(s, b)] + Pieces(s, spans)
  {
    var l := Pieces(s, [a, b] + spans);
    var r := [Cut(s, a), Cut(s, b)] + Pieces(s, spans);
    forall k | 0 <= k < |l| ensures l[k] == r[k] {
      if k >= 2 { assert ([a, b] + spans)[k] == spans[k - 2]; }
    }
  }

  /** Where the body of heading `i` lies in a text of length `n`: from the end of its
      `</h2>` to the start of the next heading, or to the end. */
  function BodySpan(n: nat, hs: seq<Heading>, i: nat): Span
    requires i < |hs|
  {
    Span(hs[i].close + |CLOSE|, if i + 1 < |hs| then hs[i + 1].start else n)
  }

  function BodyOrEmpty(s: string, hs: seq<Heading>, i: nat): string {
    if i < |hs| then Cut(s, BodySpan(|s|, hs, i)) else ""
  }

  /** The spans of the pieces `split` produces for a given list of headings: the text before
      each heading, then the heading text, and finally the text after the last heading. */
  function Interleave(n: nat, p: nat, hs: seq<Heading>): (spans: seq<Span>)
    ensures |spans| == 2 * |hs| + 1
    decreases |hs|
  {
    if hs == [] then [Span(p, n)]
    else
      [Span(p, hs[0].start), Span(hs[0].start + |OPEN|, hs[0].close)]
        + Interleave(n, hs[0].close + |CLOSE|, hs[1..])
  }

  lemma InterleaveCons(n: nat, p: nat, q: nat, c: nat, rest: seq<Heading>)
    ensures Interleave(n, p, [Heading(q, c)] + rest)
      == [Span(p, q), Span(q + |OPEN|, c)] + Interleave(n, c + |CLOSE|, rest)
  {
    assert ([Heading(q, c)] + rest)[1..] == rest;
  }

  /** At the end of the text, `split` emits what is left and there are no more headings. */
  lemma SplitEnd(s: string, p: nat)
    requires p <= |s|
    ensures SplitFrom(s, p, |s|) == Pieces(s, Interleave(|s|, p, HeadingsFrom(s, |s|)))
  {
    assert Pieces(s, [Span(p, |s|)])[0] == s[p..];
  }

  /** No heading match at `q`: the scan moves on by one character. */
  lemma SplitSkip(s: string, p: nat, q: nat)
    requires p <= q < |s| && HeadingAt(s, q).None?
    ensures SplitFrom(s, p, q) == SplitFrom(s, p, q + 1)
    ensures HeadingsFrom(s, q) == HeadingsFrom(s, q + 1)
  {
  }

  /** One heading match found at `q`: `split` emits the text before it and its heading text,
      and the heading list starts with it. */
  lemma SplitStep(s: string, p: nat, q: nat, c: nat)
    requires p <= q < |s| && HeadingAt(s, q) == Some(c)
    ensures c + |CLOSE| <= |s|
    ensures SplitFrom(s, p, q)
      == [Cut(s, Span(p, q)), Cut(s, Span(q + |OPEN|, c))] + SplitFrom(s, c + |CLOSE|, c + |CLOSE|)
    ensures HeadingsFrom(s, q) == [Heading(q, c)] + HeadingsFrom(s, c + |CLOSE|)
  {
  }

  /** `split` is the interleaving of the text between headings with the captured heading texts. */
  lemma {:induction false} SplitIsInterleave(s: string, p: nat, q: nat)
    requires p <= q <= |s|
    ensures SplitFrom(s, p, q) == Pieces(s, Interleave(|s|, p, HeadingsFrom(s, q)))
    decreases |s| - q
  {
    if q == |s| {
      SplitEnd(s, p);
    } else if HeadingAt(s, q).None? {
      SplitSkip(s, p, q);
      SplitIsInterleave(s, p, q + 1);
    } else {
      var c := HeadingAt(s, q).value;
      var next := c + |CLOSE|;
      SplitStep(s, p, q, c);
      SplitIsInterleave(s, next, next);
      var rest := HeadingsFrom(s, next);
      var a, b := Span(p, q), Span(q + |OPEN|, c);
      calc {
        Pieces(s, Interleave(|s|, p, HeadingsFrom(s, q)));
        { InterleaveCons(|s|, p, q, c, rest); }
        Pieces(s, [a, b] + Interleave(|s|, next, rest));
        { PiecesCons(s, a, b, Interleave(|s|, next, rest)); }
        [Cut(s, a), Cut(s, b)] + Pieces(s, Interleave(|s|, next, rest));
        [Cut(s, a), Cut(s, b)] + SplitFrom(s, next, next);
      }
    }
  }

  /** Span `2 i + 1` of the interleaving is the text of heading `i`, and span `2 i + 2` its
      body. */
  lemma {:induction false} InterleaveAt(n: nat, p: nat, hs: seq<Heading>, i: nat)
    requires i < |hs|
    ensures Interleave(n, p, hs)[2 * i + 1] == Span(hs[i].start + |OPEN|, hs[i].close)
    ensures Interleave(n, p, hs)[2 * i + 2] == BodySpan(n, hs, i)
    decreases i
  {
    var rest := hs[1..];
    var tail := Interleave(n, hs[0].close + |CLOSE|, rest);
    assert Interleave(n, p, hs)[2 * i + 2] == tail[2 * i];
    if i == 0 {
      if |rest| > 0 { assert rest[0] == hs[1]; }
    } else {
      assert Interleave(n, p, hs)[2 * i + 1] == tail[2 * (i - 1) + 1];
      InterleaveAt(n, hs[0].close + |CLOSE|, rest, i - 1);
      assert rest[i - 1] == hs[i];
      if i < |rest| { assert rest[i] == hs[i + 1]; }
    }
  }

  /** Every section is a contiguous piece of the content. */
  lemma SectionsAreSubstrings(contentHtml: string)
    ensures var sections := UseStorySections(contentHtml);
      && Includes(contentHtml, sections.lifeBeforeIslam)
      && Includes(contentHtml, sections.momentOfGuidance)
      && Includes(contentHtml, sections.reflections)
  {
    var hs := Headings(contentHtml);
    BodyIncluded(contentHtml, hs, 0);
    BodyIncluded(contentHtml, hs, 1);
    BodyIncluded(contentHtml, hs, 2);
  }

  lemma BodyIncluded(s: string, hs: seq<Heading>, i: nat)
    ensures Includes(s, BodyOrEmpty(s, hs, i))
  {
    if i < |hs| {
      var sp := BodySpan(|s|, hs, i);
      if sp.lo <= sp.hi <= |s| {
        SliceIncluded(s, sp.lo, sp.hi);
        return;
      }
    }
    IncludesAt(s, "", 0);
  }

  /** The body of a well-placed heading lies inside the text. */
  lemma BodyBounds(n: nat, hs: seq<Heading>, i: nat)
    requires WellPlaced(n, 0, hs) && i < |hs|
    ensures BodySpan(n, hs, i).lo <= BodySpan(n, hs, i).hi <= n
  {
    WellPlacedAt(n, 0, hs, i);
    if i + 1 < |hs| { WellPlacedAt(n, 0, hs, i + 1); }
  }

  /** The body of a well-placed heading lies between its own heading and the next one, so
      it overlaps no heading. */
  lemma BodyApart(n: nat, hs: seq<Heading>, i: nat, j: nat)
    requires WellPlaced(n, 0, hs) && i < |hs| && j < |hs|
    ensures hs[j].close + |CLOSE| <= BodySpan(n, hs, i).lo || BodySpan(n, hs, i).hi <= hs[j].start
  {
    if j < i {
      WellPlacedOrdered(n, 0, hs, j, i);
      WellPlacedAt(n, 0, hs, i);
    } else if j > i + 1 {
      WellPlacedOrdered(n, 0, hs, i + 1, j);
      WellPlacedAt(n, 0, hs, i + 1);
    }
  }

  /** No match of the expression starts inside the body of a heading: the body runs up to
      the next match of the expression, not merely the next heading listed. */
  lemma BodyHoldsNoMatch(s: string, i: nat)
    requires i < |Headings(s)|
    ensures var sp := BodySpan(|s|, Headings(s), i);
      forall r :: sp.lo <= r < sp.hi && r <= |s| ==> HeadingAt(s, r).None?
  {
    var hs := Headings(s);
    var sp := BodySpan(|s|, hs, i);
    forall r | sp.lo <= r < sp.hi && r <= |s| ensures HeadingAt(s, r).None? {
      if HeadingAt(s, r).Some? {
        forall h | h in hs ensures !(h.start < r < h.close + |CLOSE|) {
          var j :| 0 <= j < |hs| && hs[j] == h;
          BodyApart(|s|, hs, i, j);
        }
        HeadingsComplete(s, 0, r);
        var h :| h in hs && h.start == r;
        var j :| 0 <= j < |hs| && hs[j] == h;
        BodyApart(|s|, hs, i, j);
        WellPlacedAt(|s|, 0, hs, j);
        assert false;
      }
    }
  }

  /** A section never overlaps any heading match, so no heading text (the capture) is
      part of any section, and no match of the expression starts inside a section. */
  lemma SectionsAvoidHeadings(contentHtml: string, i: nat, j: nat)
    requires var hs := Headings(contentHtml); i < 3 && i < |hs| && j < |hs|
    ensures var hs := Headings(contentHtml);
      var lo := hs[i].close + |CLOSE|;
      var hi := if i + 1 < |hs| then hs[i + 1].start else |contentHtml|;
      && lo <= hi <= |contentHtml|
      && BodyOrEmpty(contentHtml, hs, i) == contentHtml[lo..hi]
      && (hs[j].close + |CLOSE| <= lo || hi <= hs[j].start)
      && forall r :: lo <= r < hi ==> HeadingAt(contentHtml, r).None?
  {
    var hs := Headings(contentHtml);
    BodyBounds(|contentHtml|, hs, i);
    BodyApart(|contentHtml|, hs, i, j);
    BodyHoldsNoMatch(contentHtml, i);
  }

  /** Each heading match is lazy and stays on one line: it ends at the first `</h2>` after
      its `<h2>`, and no line terminator lies between the two. */
  lemma HeadingsAreLazySingleLine(contentHtml: string, i: nat)
    requires i < |Headings(contentHtml)|
    ensures var h := Headings(contentHtml)[i];
      && h.start <= |contentHtml|
      && StartsWith(contentHtml[h.start..], OPEN)
      && h.close <= |contentHtml|
      && StartsWith(contentHtml[h.close..], CLOSE)
      && forall k :: h.start + |OPEN| <= k < h.close ==>
           !IsLineTerminator(contentHtml[k]) && !ClosesAt(contentHtml, k)
  {
    var h := Headings(contentHtml)[i];
    HeadingsAreMatches(contentHtml, 0, i);
    CloseFromIsLazy(contentHtml, h.start + |OPEN|);
    OpensAtIsPrefix(contentHtml, h.start);
    ClosesAtIsPrefix(contentHtml, h.close);
  }
}
